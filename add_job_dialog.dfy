/**
 * The "Post Job" dialog: turning the form into a `jobs` row (requirements
 * split on commas and trimmed, an empty salary stored as null), inserting it,
 * and on success closing the dialog, resetting the form and notifying the page.
 */
module AddJobDialog {
  import opened Wrappers
  import opened Text
  import opened Backend

  /** The form's fields, all text; `requirements` is comma-separated. */
  datatype JobForm = JobForm(
    title: string, company: string, description: string, location: string,
    jobType: string, salaryRange: string, requirements: string)

  /** The form as first shown and as reset after a post. */
  const EmptyForm: JobForm := JobForm("", "", "", "", "full_time", "", "")

  const JobPosted: string := "Job posted successfully!"
  const PostFailed: string := "Failed to post job"

  /** `formData.salary_range || null`. */
  function SalaryOrNull(salary: string): (r: Option<string>)
    ensures r.None? <==> salary == ""
    ensures r.Some? ==> r.value == salary
  {
    if salary == "" then None else Some(salary)
  }

  /** `raw ? raw.split(",").map(r => r.trim()) : []`. */
  function ParseRequirements(raw: string): seq<string>
  {
    if raw == "" then []
    else
      var pieces := Split(raw, ',');
      seq(|pieces|, i requires 0 <= i < |pieces| => Trim(pieces[i]))
  }

  /**
   * No requirements for an empty string; otherwise one per comma-separated
   * piece, empty pieces kept, each the trimmed piece and so free of commas
   * and of surrounding whitespace.
   */
  lemma ParseRequirementsSpec(raw: string)
    ensures raw == "" ==> ParseRequirements(raw) == []
    ensures raw != "" ==>
      |ParseRequirements(raw)| == Count(raw, ',') + 1
      && |ParseRequirements(raw)| == |Split(raw, ',')|
      && forall i :: 0 <= i < |ParseRequirements(raw)| ==>
        ParseRequirements(raw)[i] == Trim(Split(raw, ',')[i])
        && ',' !in ParseRequirements(raw)[i]
        && LeadingWhitespace(ParseRequirements(raw)[i]) == 0
        && TrailingWhitespace(ParseRequirements(raw)[i]) == 0
  {
    if raw != "" {
      SplitCount(raw, ',');
      SplitPiecesHaveNoSeparator(raw, ',');
      var pieces := Split(raw, ',');
      var r := ParseRequirements(raw);
      forall i | 0 <= i < |r| ensures ',' !in r[i] {
        var a :| TrimmedAt(pieces[i], r[i], a);
        assert pieces[i][a..a + |r[i]|] == r[i];
      }
    }
  }

  /** Two commas in a row give an empty requirement, which is kept. */
  lemma ParseRequirementsKeepsEmptyPieces()
    ensures ParseRequirements("Go, ,Go") == ["Go", "", "Go"]
  {
    SplitExample();
    TrimExamples();
    var r := ParseRequirements("Go, ,Go");
    assert r == [Trim("Go"), Trim(" "), Trim("Go")];
  }

  lemma SplitExample()
    ensures Split("Go, ,Go", ',') == ["Go", " ", "Go"]
  {
    assert ',' !in "Go" && ',' !in " ";
    SplitAfterPiece(" ", ',', "Go");
    assert " " + [','] + "Go" == " ,Go";
    SplitAfterPiece("Go", ',', " ,Go");
    assert "Go" + [','] + " ,Go" == "Go, ,Go";
  }

  lemma TrimExamples()
    ensures Trim(" ") == "" && Trim("Go") == "Go"
  {
    assert LeadingWhitespace(" ") == 1 && " "[1..] == [];
    assert LeadingWhitespace("Go") == 0 && TrailingWhitespace("Go") == 0;
    assert "Go"[0..][..2] == "Go";
  }

  /** The row `handleSubmit` inserts for `employer`. */
  function BuildJobRecord(form: JobForm, employer: UserId): (r: JobRecord)
    ensures r.employerId == employer
    ensures r.title == form.title && r.company == form.company && r.description == form.description
    ensures r.location == form.location && r.jobType == form.jobType
    ensures r.salaryRange.None? <==> form.salaryRange == ""
    ensures r.salaryRange.Some? ==> r.salaryRange.value == form.salaryRange
    ensures r.requirements == ParseRequirements(form.requirements)
    ensures form.requirements == "" <==> r.requirements == []
  {
    ParseRequirementsSpec(form.requirements);
    JobRecord(employer, form.title, form.company, form.description, form.location, form.jobType,
              SalaryOrNull(form.salaryRange), ParseRequirements(form.requirements))
  }

  /** `error.message || "Failed to post job"`. */
  function FailureText(raised: Raised): string
  {
    if raised.message == "" then PostFailed else raised.message
  }

  /** The dialog's state: open or closed, loading, the form, and how often `onJobAdded` has fired. */
  class JobDialog {
    const user: Option<UserId>
    const store: Store
    var open: bool
    var loading: bool
    var form: JobForm
    var jobAddedCalls: nat

    constructor (user: Option<UserId>, store: Store)
      ensures this.user == user && this.store == store
      ensures !open && !loading && form == EmptyForm && jobAddedCalls == 0
    {
      this.user := user;
      this.store := store;
      open, loading := false, false;
      form := EmptyForm;
      jobAddedCalls := 0;
    }

    /**
     * `handleSubmit`: nothing without a viewer; otherwise insert the row built
     * from the form, throwing the reply's `error` if there is one. Success
     * closes the dialog, resets the form and fires the callback once; a
     * failure, raised or returned, leaves dialog and form as they were.
     * Loading ends false either way.
     */
    method HandleSubmit(call: Call) returns (toast: Option<Toast>)
      modifies this`open, this`loading, this`form, this`jobAddedCalls, store`jobs
      ensures user.None? ==>
        toast.None? && store.jobs == old(store.jobs)
        && open == old(open) && loading == old(loading) && form == old(form) && jobAddedCalls == old(jobAddedCalls)
      ensures user.Some? && call.Through? ==>
        store.jobs == old(store.jobs) + [BuildJobRecord(old(form), user.value)]
        && toast == Some(Success(JobPosted))
        && !open && !loading && form == EmptyForm && jobAddedCalls == old(jobAddedCalls) + 1
      ensures user.Some? && !call.Through? ==>
        store.jobs == old(store.jobs)
        && toast == Some(Error(FailureText(call.failure)))
        && open == old(open) && !loading && form == old(form) && jobAddedCalls == old(jobAddedCalls)
    {
      if user.None? {
        return None;
      }
      loading := true;
      var raised, error := store.InsertJob(BuildJobRecord(form, user.value), call);
      if raised.Some? {
        toast := Some(Error(FailureText(raised.value)));
      } else if error.Some? {
        toast := Some(Error(FailureText(error.value)));
      } else {
        toast := Some(Success(JobPosted));
        open := false;
        form := EmptyForm;
        jobAddedCalls := jobAddedCalls + 1;
      }
      loading := false;
    }
  }
}
