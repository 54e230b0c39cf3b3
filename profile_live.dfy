/**
 * The live profile page: loading the viewer's applications and then their
 * enrollments, the four achievements derived from the two counts, and the
 * display form of the viewer's role.
 */
module ProfileLive {
  import opened Wrappers
  import opened Text
  import opened Backend

  /** An application row joined with its job's title and company. */
  datatype ApplicationView = ApplicationView(id: Id, status: string, appliedAt: int, jobTitle: string, jobCompany: string)

  /** An enrollment row joined with its course's title and instructor. */
  datatype EnrollmentView = EnrollmentView(id: Id, progress: int, enrolledAt: int, courseTitle: string, instructorName: string)

  const ProfileLoadFailed: string := "Failed to load profile data"

  // ---------------------------------------------------------------------
  // Achievements

  datatype Achievement = Achievement(title: string, desc: string, unlocked: bool)

  /** The achievements tab for a viewer with the given numbers of applications and enrollments. */
  function Achievements(applications: nat, enrollments: nat): (a: seq<Achievement>)
    ensures |a| == 4
    ensures a[0].title == "First Job Application" && (a[0].unlocked <==> applications >= 1)
    ensures a[1].title == "Learner" && (a[1].unlocked <==> enrollments >= 1)
    ensures a[2].title == "Active Job Seeker" && (a[2].unlocked <==> applications >= 5)
    ensures a[3].title == "Course Enthusiast" && (a[3].unlocked <==> enrollments >= 3)
    ensures a[2].unlocked ==> a[0].unlocked
    ensures a[3].unlocked ==> a[1].unlocked
  {
    [ Achievement("First Job Application", "Applied to your first job", applications > 0),
      Achievement("Learner", "Enrolled in your first course", enrollments > 0),
      Achievement("Active Job Seeker", "Applied to 5 jobs", applications >= 5),
      Achievement("Course Enthusiast", "Enrolled in 3 courses", enrollments >= 3) ]
  }

  /** One more application or enrollment never locks an achievement. */
  lemma AchievementsMonotone(applications: nat, enrollments: nat, moreApplications: nat, moreEnrollments: nat)
    requires applications <= moreApplications && enrollments <= moreEnrollments
    ensures forall i :: 0 <= i < 4 && Achievements(applications, enrollments)[i].unlocked ==>
      Achievements(moreApplications, moreEnrollments)[i].unlocked
  {
    var a := Achievements(applications, enrollments);
    var b := Achievements(moreApplications, moreEnrollments);
    assert a[0].unlocked ==> b[0].unlocked;
  }

  // ---------------------------------------------------------------------
  // Role display

  /** A character the regular expression class `\w` accepts. */
  predicate IsWordChar(c: char)
  {
    ('a' <= c <= 'z') || ('A' <= c <= 'Z') || ('0' <= c <= '9') || c == '_'
  }

  /** `\b\w` matches at `i`: a word character not preceded by one. */
  predicate StartsWord(s: string, i: int)
    requires 0 <= i < |s|
  {
    IsWordChar(s[i]) && (i == 0 || !IsWordChar(s[i - 1]))
  }

  /** `s.replace(/\b\w/g, l => l.toUpperCase())`. */
  function CapitalizeWords(s: string): string
  {
    seq(|s|, i requires 0 <= i < |s| => if StartsWord(s, i) then UpperChar(s[i]) else s[i])
  }

  /** `role.replace("_", " ").replace(/\b\w/g, l => l.toUpperCase())`. */
  function RoleDisplay(role: string): string
  {
    CapitalizeWords(ReplaceFirst(role, '_', ' '))
  }

  /**
   * The display form differs from the role only in its first underscore, which
   * becomes a space, and in the case of the letters that start a word, which
   * are upper case.
   */
  lemma RoleDisplaySpec(role: string)
    ensures |RoleDisplay(role)| == |role|
    ensures ToLower(RoleDisplay(role)) == ToLower(ReplaceFirst(role, '_', ' '))
    ensures forall i :: 0 <= i < |role| ==>
      var t := ReplaceFirst(role, '_', ' ');
      (StartsWord(t, i) ==> !IsAsciiLower(RoleDisplay(role)[i])) && (!StartsWord(t, i) ==> RoleDisplay(role)[i] == t[i])
    ensures '_' !in role ==> ReplaceFirst(role, '_', ' ') == role
    ensures '_' in role ==>
      var k := FirstIndex(role, '_');
      ReplaceFirst(role, '_', ' ') == role[..k] + " " + role[k + 1..]
  {
    ReplaceFirstSpec(role, '_', ' ');
    var t := ReplaceFirst(role, '_', ' ');
    assert |t| == |role|;
  }

  /** The first underscore of "job_seeker" is the fourth character. */
  lemma ReplaceJobSeeker(role: string)
    requires role == "job_seeker"
    ensures ReplaceFirst(role, '_', ' ') == "job seeker"
  {
    ReplaceFirstSpec(role, '_', ' ');
    var k := FirstIndex(role, '_');
    assert role[3] == '_';
    assert k == 3;
    assert role[..3] == "job" && role[4..] == "seeker";
  }

  /** In "job seeker" only the letters at 0 and 4 start a word. */
  lemma CapitalizeJobSeeker(t: string)
    requires t == "job seeker"
    ensures CapitalizeWords(t) == "Job Seeker"
  {
    var c := CapitalizeWords(t);
    assert |c| == 10;
    assert c[0] == 'J' by { assert StartsWord(t, 0); }
    assert c[4] == 'S' by { assert StartsWord(t, 4); }
    forall i | 0 <= i < 10 && i != 0 && i != 4
      ensures c[i] == t[i]
    {
      assert !StartsWord(t, i);
    }
  }

  /** The role of a job seeker displays as "Job Seeker". */
  lemma RoleDisplayJobSeeker()
    ensures RoleDisplay("job_seeker") == "Job Seeker"
  {
    ReplaceJobSeeker("job_seeker");
    CapitalizeJobSeeker("job seeker");
  }

  // ---------------------------------------------------------------------
  // The page

  /** The profile page's state: the viewer, the two fetched lists and `loading`. */
  class ProfilePage {
    const user: Option<UserId>
    var applications: seq<ApplicationView>
    var enrollments: seq<EnrollmentView>
    var loading: bool

    constructor (user: Option<UserId>)
      ensures this.user == user
      ensures applications == [] && enrollments == [] && loading
    {
      this.user := user;
      applications, enrollments := [], [];
      loading := true;
    }

    /** The achievements tab as the page shows it. */
    function ShownAchievements(): seq<Achievement>
      reads this
    {
      Achievements(|applications|, |enrollments|)
    }

    /**
     * `fetchUserData`: nothing without a viewer; otherwise the applications,
     * then the enrollments, each stored unless its query errors; an error
     * skips what follows; loading ends either way.
     */
    method FetchUserData(apps: Response<ApplicationView>, enrolls: Response<EnrollmentView>)
      returns (toast: Option<Toast>)
      modifies this`applications, this`enrollments, this`loading
      ensures user.None? ==>
        toast.None? && applications == old(applications) && enrollments == old(enrollments) && loading == old(loading)
      ensures user.Some? ==> !loading
      ensures user.Some? && apps.Failed? ==>
        toast == Some(Error(ProfileLoadFailed))
        && applications == old(applications) && enrollments == old(enrollments)
      ensures user.Some? && apps.Answered? ==>
        applications == OrEmpty(apps.data)
        && (enrolls.Failed? ==> toast == Some(Error(ProfileLoadFailed)) && enrollments == old(enrollments))
        && (enrolls.Answered? ==> toast.None? && enrollments == OrEmpty(enrolls.data))
      ensures user.Some? && apps.Answered? && enrolls.Answered? ==>
        ShownAchievements() == Achievements(|OrEmpty(apps.data)|, |OrEmpty(enrolls.data)|)
    {
      if user.None? {
        return None;
      }
      toast := None;
      if apps.Failed? {
        toast := Some(Error(ProfileLoadFailed));
      } else {
        applications := OrEmpty(apps.data);
        if enrolls.Failed? {
          toast := Some(Error(ProfileLoadFailed));
        } else {
          enrollments := OrEmpty(enrolls.data);
        }
      }
      loading := false;
    }
  }
}
