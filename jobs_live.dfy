/**
 * The live jobs page: the fetched listings annotated with the viewer's saved
 * and applied status, the search filter over them, and the save/unsave and
 * apply handlers, each of which writes to the backend and then re-fetches.
 */
module JobsLive {
  import opened Wrappers
  import opened Text
  import opened Lists
  import opened Backend

  /** A job row; `isSaved` and `isApplied` are None (`undefined`) until annotated. */
  datatype Job = Job(
    id: Id, title: string, company: string, description: string, jobType: string,
    location: string, salaryRange: Option<string>, requirements: seq<string>, createdAt: int,
    isSaved: Option<bool>, isApplied: Option<bool>)

  const LoginToSave: string := "Please login to save jobs"
  const LoginToApply: string := "Please login to apply for jobs"
  const JobUnsaved: string := "Job removed from saved"
  const JobSaved: string := "Job saved successfully"
  const ApplicationSubmitted: string := "Application submitted successfully!"
  const AlreadyApplied: string := "You've already applied to this job"
  const ApplicationFailed: string := "Failed to submit application"
  const FetchJobsFailed: string := "Failed to fetch jobs"
  const Pending: string := "pending"

  // ---------------------------------------------------------------------
  // Status annotation

  /** `{...job, is_saved: saved.has(job.id), is_applied: applied.has(job.id)}`. */
  function WithStatus(job: Job, saved: set<Id>, applied: set<Id>): Job
  {
    job.(isSaved := Some(job.id in saved), isApplied := Some(job.id in applied))
  }

  /** The annotation `map` over the fetched rows. */
  function AnnotateJobs(rows: seq<Job>, saved: set<Id>, applied: set<Id>): seq<Job>
    decreases |rows|
  {
    if rows == [] then [] else [WithStatus(rows[0], saved, applied)] + AnnotateJobs(rows[1..], saved, applied)
  }

  /** `a` is the listing `b` with, at most, other status flags. */
  predicate SameListing(a: Job, b: Job)
  {
    a.(isSaved := b.isSaved, isApplied := b.isApplied) == b
  }

  /** Each annotated job is its row, flagged saved/applied exactly when its id is in the set. */
  lemma {:induction false} AnnotateJobsExact(rows: seq<Job>, saved: set<Id>, applied: set<Id>)
    ensures |AnnotateJobs(rows, saved, applied)| == |rows|
    ensures forall i :: 0 <= i < |rows| ==>
      SameListing(AnnotateJobs(rows, saved, applied)[i], rows[i])
      && AnnotateJobs(rows, saved, applied)[i].isSaved == Some(rows[i].id in saved)
      && AnnotateJobs(rows, saved, applied)[i].isApplied == Some(rows[i].id in applied)
    decreases |rows|
  {
    if rows != [] {
      AnnotateJobsExact(rows[1..], saved, applied);
      var r := AnnotateJobs(rows, saved, applied);
      forall i | 1 <= i < |rows|
        ensures r[i] == AnnotateJobs(rows[1..], saved, applied)[i - 1] && rows[i] == rows[1..][i - 1]
      {
      }
    }
  }

  /** A relationship query without data gives the empty set: every flag is false. */
  lemma NoRelationshipDataMeansUnflagged(rows: seq<Job>)
    ensures |AnnotateJobs(rows, {}, {})| == |rows|
    ensures forall i :: 0 <= i < |rows| ==>
      AnnotateJobs(rows, {}, {})[i].isSaved == Some(false) && AnnotateJobs(rows, {}, {})[i].isApplied == Some(false)
  {
    AnnotateJobsExact(rows, {}, {});
  }

  function JobCreatedAt(job: Job): int { job.createdAt }

  /** The backend's `order("created_at", descending)` survives annotation. */
  lemma {:induction false} AnnotateKeepsNewestFirst(rows: seq<Job>, saved: set<Id>, applied: set<Id>)
    requires DescendingBy(rows, JobCreatedAt)
    ensures DescendingBy(AnnotateJobs(rows, saved, applied), JobCreatedAt)
  {
    AnnotateJobsExact(rows, saved, applied);
    var r := AnnotateJobs(rows, saved, applied);
    forall i, j | 0 <= i < j < |r| ensures JobCreatedAt(r[i]) >= JobCreatedAt(r[j]) {
      assert JobCreatedAt(rows[i]) >= JobCreatedAt(rows[j]);
      assert r[i].createdAt == rows[i].createdAt;
      assert r[j].createdAt == rows[j].createdAt;
    }
  }

  // ---------------------------------------------------------------------
  // Client-side filter (as written)

  /**
   * `filteredJobs`' predicate: the lower-cased search term in the title or the
   * company; the location, unless empty, in the job's location; the job type,
   * unless empty, equal to `job_type`.
   */
  predicate KeepJob(job: Job, searchTerm: string, location: string, jobType: string)
  {
    && (Includes(ToLower(job.title), ToLower(searchTerm)) || Includes(ToLower(job.company), ToLower(searchTerm)))
    && (location == "" || Includes(ToLower(job.location), ToLower(location)))
    && (jobType == "" || job.jobType == jobType)
  }

  function JobMatcher(searchTerm: string, location: string, jobType: string): Job -> bool
  {
    (job: Job) => KeepJob(job, searchTerm, location, jobType)
  }

  /** `jobs.filter(...)` with the page's three criteria. */
  function FilterJobs(jobs: seq<Job>, searchTerm: string, location: string, jobType: string): seq<Job>
  {
    Filter(jobs, JobMatcher(searchTerm, location, jobType))
  }

  /** The filter keeps exactly the matching jobs and keeps their order. */
  lemma FilterJobsSpec(jobs: seq<Job>, searchTerm: string, location: string, jobType: string)
    ensures forall job :: job in FilterJobs(jobs, searchTerm, location, jobType) <==>
      job in jobs && KeepJob(job, searchTerm, location, jobType)
    ensures IsSubsequence(FilterJobs(jobs, searchTerm, location, jobType), jobs)
  {
    FilterMembership(jobs, JobMatcher(searchTerm, location, jobType));
    FilterIsSubsequence(jobs, JobMatcher(searchTerm, location, jobType));
  }

  /** With every criterion empty the filter returns the list unchanged. */
  lemma FilterJobsNoCriteria(jobs: seq<Job>)
    ensures FilterJobs(jobs, "", "", "") == jobs
  {
    forall i | 0 <= i < |jobs| ensures JobMatcher("", "", "")(jobs[i]) {
      assert ToLower("") == "";
      IncludesEmpty(ToLower(jobs[i].title));
    }
    FilterKeepsAll(jobs, JobMatcher("", "", ""));
  }

  /** Newest-first order survives the filter. */
  lemma FilterJobsKeepsNewestFirst(jobs: seq<Job>, searchTerm: string, location: string, jobType: string)
    requires DescendingBy(jobs, JobCreatedAt)
    ensures DescendingBy(FilterJobs(jobs, searchTerm, location, jobType), JobCreatedAt)
  {
    FilterKeepsDescending(jobs, JobMatcher(searchTerm, location, jobType), JobCreatedAt);
  }

  /** Choosing "All Types" sets the criterion to "all", so only jobs of type "all" can remain. */
  lemma AllTypesKeepsOnlyTypeAll(jobs: seq<Job>, searchTerm: string, location: string)
    ensures forall job :: job in FilterJobs(jobs, searchTerm, location, "all") ==> job.jobType == "all"
    ensures (forall i :: 0 <= i < |jobs| ==> jobs[i].jobType != "all") ==>
      FilterJobs(jobs, searchTerm, location, "all") == []
  {
    FilterJobsSpec(jobs, searchTerm, location, "all");
    var r := FilterJobs(jobs, searchTerm, location, "all");
    if r != [] {
      assert r[0] in r;
    }
  }

  /** A search for "react" over "Senior React Developer" and "UX Designer" keeps only the former. */
  lemma SearchReactExample(developer: Job, designer: Job)
    requires developer.title == "Senior React Developer"
    requires designer.title == "UX Designer" && !Includes(ToLower(designer.company), "react")
    ensures FilterJobs([developer, designer], "react", "", "") == [developer]
  {
    var keep := JobMatcher("react", "", "");
    DeveloperMatchesReact(developer);
    DesignerMissesReact(designer);
    assert [developer, designer][1..] == [designer];
    assert Filter([designer], keep) == [] by {
      assert [designer][1..] == [];
    }
  }

  lemma DeveloperMatchesReact(developer: Job)
    requires developer.title == "Senior React Developer"
    ensures KeepJob(developer, "react", "", "")
  {
    assert ToLower("react") == "react";
    assert ToLower(developer.title) == "senior react developer";
    ReactOccurs("senior react developer", "react");
  }

  lemma DesignerMissesReact(designer: Job)
    requires designer.title == "UX Designer" && !Includes(ToLower(designer.company), "react")
    ensures !KeepJob(designer, "react", "", "")
  {
    assert ToLower("react") == "react";
    assert ToLower(designer.title) == "ux designer";
    ReactDoesNotOccur("ux designer", "react");
  }

  lemma ReactOccurs(s: string, t: string)
    requires s == "senior react developer" && t == "react"
    ensures Includes(s, t)
  {
    IncludesIffOccurs(s, t);
    assert s[7..12] == t;
    assert OccursAt(s, t, 7);
  }

  lemma ReactDoesNotOccur(s: string, t: string)
    requires s == "ux designer" && t == "react"
    ensures !Includes(s, t)
  {
    IncludesIffOccurs(s, t);
    forall i | 0 <= i && i + |t| <= |s| ensures !OccursAt(s, t, i) {
      assert s[i..i + |t|][0] == s[i] != t[0];
    }
  }

  // ---------------------------------------------------------------------
  // Client-side filter (as evidently intended)

  /** The filter with "all" read as "no job-type criterion". */
  function FilterJobsIntended(jobs: seq<Job>, searchTerm: string, location: string, jobType: string): seq<Job>
  {
    FilterJobs(jobs, searchTerm, location, if jobType == "all" then "" else jobType)
  }

  /** The corrected filter keeps exactly the matching jobs, in order, with "all" accepting every type. */
  lemma FilterJobsIntendedSpec(jobs: seq<Job>, searchTerm: string, location: string, jobType: string)
    ensures forall job :: job in FilterJobsIntended(jobs, searchTerm, location, jobType) <==>
      && job in jobs
      && (Includes(ToLower(job.title), ToLower(searchTerm)) || Includes(ToLower(job.company), ToLower(searchTerm)))
      && (location == "" || Includes(ToLower(job.location), ToLower(location)))
      && (jobType == "" || jobType == "all" || job.jobType == jobType)
    ensures IsSubsequence(FilterJobsIntended(jobs, searchTerm, location, jobType), jobs)
  {
    FilterJobsSpec(jobs, searchTerm, location, if jobType == "all" then "" else jobType);
  }

  /** With the intended reading, "All Types" filters by nothing but the other two criteria. */
  lemma AllTypesIntendedIgnoresType(jobs: seq<Job>, searchTerm: string, location: string)
    ensures FilterJobsIntended(jobs, searchTerm, location, "all") == FilterJobs(jobs, searchTerm, location, "")
    ensures FilterJobsIntended(jobs, "", "", "all") == jobs
  {
    FilterJobsNoCriteria(jobs);
  }

  // ---------------------------------------------------------------------
  // Looking a job up in the fetched list

  function JobWithId(id: Id): Job -> bool
  {
    (job: Job) => job.id == id
  }

  /** `jobs.find(j => j.id === jobId)`. */
  function FindJob(jobs: seq<Job>, id: Id): Option<Job>
  {
    Find(jobs, JobWithId(id))
  }

  /** `job?.is_saved`: the first job with this id is shown as saved. */
  predicate ShownSaved(jobs: seq<Job>, id: Id)
  {
    var job := FindJob(jobs, id);
    job.Some? && job.value.isSaved == Some(true)
  }

  /** A job the list does not hold is treated as not saved. */
  lemma ShownSavedNeedsListed(jobs: seq<Job>, id: Id)
    ensures ShownSaved(jobs, id) ==> exists i :: 0 <= i < |jobs| && jobs[i].id == id && jobs[i].isSaved == Some(true)
    ensures (forall i :: 0 <= i < |jobs| ==> jobs[i].id != id) ==> !ShownSaved(jobs, id)
  {
    var k := FirstIndexWhere(jobs, JobWithId(id));
    if ShownSaved(jobs, id) {
      assert jobs[k].id == id;
    }
  }

  /** Annotating a list does not change which job a lookup by id finds, up to the flags. */
  lemma FindJobAfterAnnotation(jobs: seq<Job>, rows: seq<Job>, id: Id)
    requires |jobs| == |rows|
    requires forall i :: 0 <= i < |rows| ==> SameListing(jobs[i], rows[i])
    ensures FindJob(jobs, id).Some? <==> FindJob(rows, id).Some?
    ensures FindJob(jobs, id).Some? ==>
      var k := FirstIndexWhere(rows, JobWithId(id));
      k < |rows| && rows[k].id == id && FindJob(jobs, id).value == jobs[k] && FindJob(rows, id).value == rows[k]
  {
    forall i | 0 <= i < |rows| ensures JobWithId(id)(jobs[i]) == JobWithId(id)(rows[i]) {
      assert jobs[i].id == rows[i].id;
    }
    FirstIndexWhereAgree(jobs, JobWithId(id), rows, JobWithId(id));
  }

  /** The "Apply Now" button: `!job.is_applied && handleApply(job.id)`, disabled once the job shows as applied. */
  predicate ApplyButtonActive(job: Job)
  {
    job.isApplied != Some(true)
  }

  /** Rows as the `jobs` table returns them: neither status flag is present. */
  predicate Unflagged(jobs: seq<Job>)
  {
    forall i :: 0 <= i < |jobs| ==> jobs[i].isSaved.None? && jobs[i].isApplied.None?
  }

  /** A list without status flags shows no job as saved and every apply button active. */
  lemma UnflaggedShowsNothing(jobs: seq<Job>)
    requires Unflagged(jobs)
    ensures forall id :: !ShownSaved(jobs, id)
    ensures forall i :: 0 <= i < |jobs| ==> ApplyButtonActive(jobs[i])
  {
    forall id ensures !ShownSaved(jobs, id) {
      var k := FirstIndexWhere(jobs, JobWithId(id));
      if k < |jobs| {
        assert jobs[k].isSaved.None?;
      }
    }
  }

  // ---------------------------------------------------------------------
  // The page

  /** The jobs page's state: the viewer, the backend, the fetched `jobs` and `loading`. */
  class JobsPage {
    const user: Option<UserId>
    const store: Store
    var jobs: seq<Job>
    var loading: bool

    constructor (user: Option<UserId>, store: Store)
      ensures this.user == user && this.store == store
      ensures jobs == [] && loading
    {
      this.user := user;
      this.store := store;
      jobs := [];
      loading := true;
    }

    /** The toast one fetch shows: the listing query failed, or its null data cannot be mapped. */
    function FetchToast(listing: Response<Job>): Option<Toast>
    {
      if listing.Failed? || (user.Some? && listing.data.None?) then Some(Error(FetchJobsFailed)) else None
    }

    /**
     * What `jobs` holds after a fetch that started from `prev`, given the
     * listing answer and whether each relationship query came back without data.
     */
    ghost predicate Shows(prev: seq<Job>, listing: Response<Job>, savedMissing: bool, appliedMissing: bool)
      reads this, store
    {
      match listing
      case Failed => jobs == prev
      case Answered(None) => jobs == (if user.None? then [] else prev)
      case Answered(Some(rows)) =>
        if user.None? then jobs == rows
        else
          |jobs| == |rows|
          && forall i :: 0 <= i < |rows| ==>
            SameListing(jobs[i], rows[i])
            && jobs[i].isSaved == Some(!savedMissing && SavedJob(user.value, rows[i].id) in store.saved)
            && jobs[i].isApplied == Some(!appliedMissing && HasApplied(store.applications, rows[i].id, user.value))
    }

    /** `fetchJobs`: load the listings, annotate them for a logged-in viewer, end loading. */
    method FetchJobs(listing: Response<Job>, savedMissing: bool, appliedMissing: bool) returns (toast: Option<Toast>)
      modifies this`jobs, this`loading
      ensures !loading
      ensures Shows(old(jobs), listing, savedMissing, appliedMissing)
      ensures toast == FetchToast(listing)
      ensures user.None? && listing.Answered? && Unflagged(OrEmpty(listing.data)) ==> Unflagged(jobs)
    {
      toast := FetchToast(listing);
      match listing {
        case Failed =>
        case Answered(data) =>
          if user.None? {
            jobs := OrEmpty(data);
          } else if data.Some? {
            var saved := if savedMissing then {} else store.SavedJobIds(user.value);
            var applied := if appliedMissing then {} else store.AppliedJobIds(user.value);
            AnnotateJobsExact(data.value, saved, applied);
            jobs := AnnotateJobs(data.value, saved, applied);
          }
      }
      loading := false;
    }

    /**
     * `handleSaveJob`: unsave when the fetched job shows as saved, save
     * otherwise; then re-fetch. The reply's `error` is never read, so a write
     * that fails without raising takes the success path.
     */
    method HandleSaveJob(jobId: Id, call: Call,
                         listing: Response<Job>, savedMissing: bool, appliedMissing: bool)
      returns (toasts: seq<Toast>)
      modifies store`saved, this`jobs, this`loading
      ensures user.None? ==>
        toasts == [Error(LoginToSave)]
        && store.saved == old(store.saved) && jobs == old(jobs) && loading == old(loading)
      ensures user.Some? && ShownSaved(old(jobs), jobId) ==>
        store.saved == (if call.Through? then old(store.saved) - {SavedJob(user.value, jobId)} else old(store.saved))
      ensures user.Some? && !ShownSaved(old(jobs), jobId) ==>
        store.saved == (if call.Through? then old(store.saved) + {SavedJob(user.value, jobId)} else old(store.saved))
      ensures user.Some? && call.Raises? ==>
        toasts == [Error(call.failure.message)] && jobs == old(jobs) && loading == old(loading)
      ensures user.Some? && call.Through? && !ShownSaved(old(jobs), jobId) && SavedJob(user.value, jobId) in old(store.saved) ==>
        toasts == [Error(DuplicateKeyMessage)] && jobs == old(jobs) && loading == old(loading)
      ensures user.Some? && !call.Raises?
              && (call.Returns? || ShownSaved(old(jobs), jobId) || SavedJob(user.value, jobId) !in old(store.saved)) ==>
        && |toasts| >= 1 && toasts[0] == Success(if ShownSaved(old(jobs), jobId) then JobUnsaved else JobSaved)
        && toasts[1..] == (if FetchToast(listing).Some? then [FetchToast(listing).value] else [])
        && !loading && Shows(old(jobs), listing, savedMissing, appliedMissing)
    {
      if user.None? {
        return [Error(LoginToSave)];
      }
      var raised: Option<Raised>;
      var error: Option<Raised>;  // the reply's `error`, which the page never reads
      var done: string;
      if ShownSaved(jobs, jobId) {
        raised, error := store.DeleteSaved(user.value, jobId, call);
        done := JobUnsaved;
      } else {
        raised, error := store.InsertSaved(SavedJob(user.value, jobId), call);
        done := JobSaved;
      }
      if raised.Some? {
        return [Error(raised.value.message)];
      }
      var fetched := FetchJobs(listing, savedMissing, appliedMissing);
      toasts := [Success(done)] + (if fetched.Some? then [fetched.value] else []);
    }

    /**
     * `handleApply`: insert a pending application; a raised duplicate is
     * reported, not stored; then re-fetch. The reply's `error` is never read,
     * so an insert that fails without raising is reported as submitted.
     */
    method HandleApply(jobId: Id, call: Call,
                       listing: Response<Job>, savedMissing: bool, appliedMissing: bool)
      returns (toasts: seq<Toast>)
      requires store.Valid()
      modifies store`applications, this`jobs, this`loading
      ensures store.Valid()
      ensures old(store.applications) <= store.applications
      ensures user.None? ==>
        toasts == [Error(LoginToApply)]
        && store.applications == old(store.applications) && jobs == old(jobs) && loading == old(loading)
      ensures user.Some? ==>
        var refused := call.Raises? || (call.Through? && HasApplied(old(store.applications), jobId, user.value));
        && store.applications == (if call.Through? && !refused
                                  then old(store.applications) + {Application(jobId, user.value, Pending)}
                                  else old(store.applications))
        && HasApplied(store.applications, jobId, user.value) == (call.Through? || HasApplied(old(store.applications), jobId, user.value))
        && (refused ==>
              var code := if call.Raises? then call.failure.code else UniqueViolation;
              toasts == [Error(if code == UniqueViolation then AlreadyApplied else ApplicationFailed)]
              && jobs == old(jobs) && loading == old(loading))
        && (!refused ==>
              |toasts| >= 1 && toasts[0] == Success(ApplicationSubmitted)
              && toasts[1..] == (if FetchToast(listing).Some? then [FetchToast(listing).value] else [])
              && !loading && Shows(old(jobs), listing, savedMissing, appliedMissing))
      ensures user.Some? && call.Returns? ==>
        store.applications == old(store.applications) && |toasts| >= 1 && toasts[0] == Success(ApplicationSubmitted)
    {
      if user.None? {
        return [Error(LoginToApply)];
      }
      var row := Application(jobId, user.value, Pending);
      var raised, error := store.InsertApplication(row, call);  // `error` is never read
      if raised.Some? {
        var message := if raised.value.code == UniqueViolation then AlreadyApplied else ApplicationFailed;
        return [Error(message)];
      }
      var fetched := FetchJobs(listing, savedMissing, appliedMissing);
      toasts := [Success(ApplicationSubmitted)] + (if fetched.Some? then [fetched.value] else []);
    }
  }

  // ---------------------------------------------------------------------
  // Visits

  /**
   * A visitor who is not logged in loads the page: the rows are shown as the
   * table returns them, without flags, so nothing shows as saved and every
   * apply button is active; applying then asks for a login and stores nothing.
   */
  method AnonymousVisit(store: Store, rows: seq<Job>, jobId: Id) returns (page: JobsPage, applied: seq<Toast>)
    requires store.Valid()
    requires Unflagged(rows)
    modifies store`applications
    ensures fresh(page) && page.user.None? && page.store == store
    ensures page.jobs == rows && !page.loading
    ensures forall id :: !ShownSaved(page.jobs, id)
    ensures forall i :: 0 <= i < |page.jobs| ==> ApplyButtonActive(page.jobs[i])
    ensures applied == [Error(LoginToApply)]
    ensures store.applications == old(store.applications)
  {
    page := new JobsPage(None, store);
    var fetched := page.FetchJobs(Answered(Some(rows)), false, false);
    UnflaggedShowsNothing(page.jobs);
    applied := page.HandleApply(jobId, Through, Answered(Some(rows)), false, false);
  }

  /**
   * Saving a job the page shows as unsaved, with a re-fetch that lists it,
   * makes the page show it as saved; the second click then unsaves it, which
   * restores the saved-jobs table.
   */
  method SaveThenUnsave(page: JobsPage, jobId: Id, rows: seq<Job>) returns (first: seq<Toast>, second: seq<Toast>)
    requires page.user.Some?
    requires !ShownSaved(page.jobs, jobId)
    requires SavedJob(page.user.value, jobId) !in page.store.saved
    requires exists i :: 0 <= i < |rows| && rows[i].id == jobId
    modifies page.store`saved, page`jobs, page`loading
    ensures first == [Success(JobSaved)] && second == [Success(JobUnsaved)]
    ensures page.store.saved == old(page.store.saved)
  {
    var u := page.user.value;
    first := page.HandleSaveJob(jobId, Through, Answered(Some(rows)), false, false);
    assert SavedJob(u, jobId) in page.store.saved;
    FindJobAfterAnnotation(page.jobs, rows, jobId);
    second := page.HandleSaveJob(jobId, Through, Answered(Some(rows)), false, false);
  }

  /**
   * Applying to a job, with a re-fetch that lists it, shows the job as
   * applied, which disables its button. Calling the handler again all the
   * same is refused as a duplicate and adds no record.
   */
  method ApplyTwice(page: JobsPage, jobId: Id, rows: seq<Job>) returns (first: seq<Toast>, second: seq<Toast>)
    requires page.user.Some? && page.store.Valid()
    requires !HasApplied(page.store.applications, jobId, page.user.value)
    requires exists i :: 0 <= i < |rows| && rows[i].id == jobId
    modifies page.store`applications, page`jobs, page`loading
    ensures first == [Success(ApplicationSubmitted)]
    ensures FindJob(page.jobs, jobId).Some? && !ApplyButtonActive(FindJob(page.jobs, jobId).value)
    ensures second == [Error(AlreadyApplied)]
    ensures page.store.applications == old(page.store.applications) + {Application(jobId, page.user.value, Pending)}
  {
    var u := page.user.value;
    first := page.HandleApply(jobId, Through, Answered(Some(rows)), false, false);
    FindJobAfterAnnotation(page.jobs, rows, jobId);
    second := page.HandleApply(jobId, Through, Answered(Some(rows)), false, false);
  }
}
