# Job and course portal: the per-viewer relationship layer

This project models the logic of a job and course portal's "live" pages in Dafny:

- the jobs page (`JobsLive`);
- the courses page (`CoursesLive`);
- the profile page (`ProfileLive`);
- the "Post Job" dialog (`AddJobDialog`).

Listings (jobs and courses) are visible to everyone. A logged-in viewer also has relationships with them: saved jobs, applications and enrollments. The pages:

- fetch the listings;
- annotate each listing with the viewer's relationship flags (`is_saved`, `is_applied`, `is_enrolled`);
- filter the annotated list by a case-insensitive search;
- change the relationship tables through handlers that write to the backend and then re-fetch.

## Structure

| module | file | what it holds |
|---|---|---|
| `Wrappers` | wrappers.dfy | `Option`, toasts as values, `data \|\| []` |
| `Text` | text.dfy | JavaScript `toLowerCase` (ASCII), `includes`, `trim` (the ECMAScript whitespace set), `split`/`join`, `replace` of the first occurrence |
| `Lists` | lists.dfy | `filter`, `find`, order-preservation facts |
| `Backend` | backend.dfy | The backend tables as a class `Store`. It holds the saved-jobs, applications and enrollments tables as sets, `student_count` as a map, and the `jobs` table as a sequence. Writes are methods. The uniqueness constraint on (viewer, listing) pairs is modelled: a duplicate insert raises Postgres error 23505 and changes nothing. |
| `JobsLive` | jobs_live.dfy | The job annotation and filter as functions with lemmas. The page is the class `JobsPage`, with `FetchJobs`, `HandleSaveJob` and `HandleApply`. It also has scenarios: an anonymous visit, save then unsave, and applying twice. |
| `CoursesLive` | courses_live.dfy | The same for courses. `HandleEnroll` writes the fetched `student_count` + 1. |
| `ProfileLive` | profile_live.dfy | Achievements, the role's display string, and `FetchUserData`'s sequencing. |
| `AddJobDialog` | add_job_dialog.dfy | Building the `jobs` row from the form, and `HandleSubmit` with the form reset. |

### Backend answers are parameters

The backend's answers are parameters of the methods that read them:

- A listing query answers `Failed` or `Answered(data)`, where `data` may be null (`None`).
- "The relationship query came back without data" is a boolean parameter.
- A write ends in one of three ways, given as a `Call`:
  - `Through`: it reaches the table, where a duplicate pair raises 23505;
  - `Raises(failure)`: the client raises before the table changes;
  - `Returns(failure)`: the client hands the failure back in the reply's `error` field without raising, and the table is unchanged.
- The pages await their writes but never read the reply's `error` (src/pages/JobsLive.tsx:88-96, 112-118; src/pages/CoursesLive.tsx:78-91). So a `Returns` write takes the success path there. The dialog throws it (src/components/AddJobDialog.tsx:48).
- The relationship ids are read from the `Store`, and so is each listed course's `student_count`. A re-fetch after a write therefore sees that write.

Toasts are returned as values (`Success(text)` / `Error(text)`), with the source's exact texts.

## Model

| member | source | states |
|---|---|---|
| JobsLive.AnnotateJobsExact | src/pages/JobsLive.tsx:60-66 | The annotated list has the rows' length and order. Every other field is unchanged. `is_saved` is true iff the id is in the saved set, and `is_applied` is true iff it is in the applied set. |
| JobsLive.NoRelationshipDataMeansUnflagged | src/pages/JobsLive.tsx:52-61 | A relationship query with no data gives an empty set, so every `is_saved` / `is_applied` is false. |
| JobsLive.AnnotateKeepsNewestFirst | src/pages/JobsLive.tsx:45-66 | The backend's newest-first order survives annotation. |
| JobsLive.FilterJobsSpec | src/pages/JobsLive.tsx:130-136 | A job is in the filtered list iff it is in the list and its lower-cased title or company includes the lower-cased term, the location is empty or included in the job's location, and the type is empty or equal to `job_type`. The result is an order-preserving subsequence. |
| JobsLive.FilterJobsNoCriteria | src/pages/JobsLive.tsx:130-136 | With all three criteria empty, the filter returns its input unchanged. |
| JobsLive.FilterJobsKeepsNewestFirst | src/pages/JobsLive.tsx:130-136 | A list sorted newest-first stays so after filtering. |
| JobsLive.SearchReactExample | src/pages/JobsLive.tsx:131-132 | A search for "react" over "Senior React Developer" and "UX Designer" keeps exactly the former. |
| JobsLive.AllTypesKeepsOnlyTypeAll | src/pages/JobsLive.tsx:134 | The "All Types" choice sets the criterion `"all"`, so only jobs whose type is literally `"all"` survive, and a list without such jobs filters to nothing. |
| JobsLive.FilterJobsIntendedSpec | src/pages/JobsLive.tsx:130-136 | The corrected filter keeps a job iff it is listed, matches the search and location, and the type criterion is empty, `"all"` or equal to its type. Order is kept. |
| JobsLive.AllTypesIntendedIgnoresType | src/pages/JobsLive.tsx:167 | The corrected filter reads `"all"` as "no type criterion", so "All Types" with empty search and location returns every job. |
| JobsLive.ShownSavedNeedsListed | src/pages/JobsLive.tsx:85-86 | `job?.is_saved` is true only for a listed job flagged saved. A job absent from the fetched list counts as not saved. |
| JobsLive.FindJobAfterAnnotation | src/pages/JobsLive.tsx:62-66 | Annotation does not change which row a lookup by id finds. |
| JobsLive.UnflaggedShowsNothing | src/pages/JobsLive.tsx:68-70 | Rows without status flags, as the `jobs` table returns them, show no job as saved and every apply button as active. |
| JobsLive.JobsPage.FetchJobs | src/pages/JobsLive.tsx:40-76 | `loading` ends false. A failed listing query and, for a viewer, a null listing both leave `jobs` unchanged with the "Failed to fetch jobs" toast. Without a viewer, `jobs` is the data or `[]`, stored as is, so rows without flags stay without flags. With a viewer, each row is annotated from the store's saved and applied pairs, or flagged false if that query had no data. |
| JobsLive.JobsPage.HandleSaveJob | src/pages/JobsLive.tsx:78-103 | No viewer: a login toast and no write. Otherwise the fetched `is_saved` picks the branch. If set, exactly the (viewer, job) pair is deleted; if not, it is inserted. Only a `Through` call changes the table, and nothing else in the store changes. A raise (the client's, or 23505 for a duplicate insert) shows its message and skips the re-fetch. Otherwise the success toast is shown and the page re-fetches. This includes a write whose returned error left the table unchanged. |
| JobsLive.JobsPage.HandleApply | src/pages/JobsLive.tsx:105-128 | No viewer: a login toast and no write. Otherwise it inserts (job, viewer, "pending"); applications are never removed. An existing pair raises 23505 and leaves the set unchanged, with "already applied". Another raise gives "Failed to submit application". Otherwise "Application submitted successfully!" is shown and the page re-fetches. This includes an insert that returned an error and stored nothing. |
| JobsLive.SaveThenUnsave | src/pages/JobsLive.tsx:78-103 | Saving a job shown as unsaved, with a re-fetch that lists it, makes the page show it as saved. The second click unsaves it and restores the saved-jobs table. |
| JobsLive.ApplyTwice | src/pages/JobsLive.tsx:105-128 | Applying, with a re-fetch that lists the job, shows it as applied, which disables its button (src/pages/JobsLive.tsx:223-226). A second handler call all the same is refused as "already applied", so exactly one record exists. |
| JobsLive.AnonymousVisit | src/pages/JobsLive.tsx:68-70 | A visitor who is not logged in sees the rows as returned, with no flags. No job shows as saved, every apply button is active, and applying gives the login toast and stores nothing. |
| CoursesLive.AnnotateCoursesExact | src/pages/CoursesLive.tsx:55-59 | Length, order and every other field are unchanged. `is_enrolled` is true iff the id is in the enrolled set. |
| CoursesLive.NoEnrollmentDataMeansUnflagged | src/pages/CoursesLive.tsx:51-55 | An enrollment query without data leaves every `is_enrolled` false. |
| CoursesLive.AnnotateKeepsNewestFirst | src/pages/CoursesLive.tsx:45-59 | The `created_at` descending order survives annotation. |
| CoursesLive.FilterCoursesSpec | src/pages/CoursesLive.tsx:105-111 | A course is kept iff its title or instructor includes the term (lower-cased), the category is empty or included, and the level is empty or equal. Order is preserved. |
| CoursesLive.FilterCoursesNoCriteria | src/pages/CoursesLive.tsx:105-111 | Empty criteria return the input unchanged. |
| CoursesLive.FilterCoursesKeepsNewestFirst | src/pages/CoursesLive.tsx:105-111 | Newest-first order survives the filter. |
| CoursesLive.AllLevelsKeepsOnlyLevelAll | src/pages/CoursesLive.tsx:109 | "All Levels" sets `"all"`, which keeps only courses of level `"all"`. |
| CoursesLive.FilterCoursesIntendedSpec | src/pages/CoursesLive.tsx:105-111 | The corrected filter keeps a course iff it is listed, matches the search and category, and the level criterion is empty, `"all"` or equal to its level. Order is kept. |
| CoursesLive.AllLevelsIntendedIgnoresLevel | src/pages/CoursesLive.tsx:142 | The corrected filter reads `"all"` as no level criterion. |
| CoursesLive.FindCourseAfterAnnotation | src/pages/CoursesLive.tsx:56-59 | Annotation does not change which row a lookup by id finds. |
| CoursesLive.UnflaggedShowsNothing | src/pages/CoursesLive.tsx:61-62 | Rows without the enrollment flag have every enroll button active. |
| CoursesLive.CurrentRows | src/pages/CoursesLive.tsx:43-45 | Each listed row is returned with the stored `student_count` for its id, and with every other field unchanged. |
| CoursesLive.CoursesPage.FetchCourses | src/pages/CoursesLive.tsx:41-69 | Same as `FetchJobs`, for courses and the enrolled flag. Each row carries the stored `student_count`. Without a viewer, rows without flags stay without flags. |
| CoursesLive.CoursesPage.HandleEnroll | src/pages/CoursesLive.tsx:71-103 | No viewer: no write. A successful insert adds (course, viewer, progress 0, not completed). Unless the insert raises, it then writes the FETCHED count + 1, and only for a course in the fetched list; other courses' counts are unchanged. A raised insert (23505 gives "already enrolled", anything else "Failed to enroll") skips the count update and the re-fetch. The count changes only after an insert that did not raise. That includes one that returned an error and stored no enrollment. |
| CoursesLive.EnrollTwice | src/pages/CoursesLive.tsx:71-103 | Enrolling in a listed course whose stored and shown count is n makes the stored count n + 1. The re-fetch, which reads the stored count, shows n + 1 and enrolled, which disables the button (src/pages/CoursesLive.tsx:190-194). A second handler call all the same is refused as "already enrolled", and the count stays n + 1. |
| ProfileLive.Achievements | src/pages/ProfileLive.tsx:230-234 | Four achievements, in order. "First Job Application" iff at least 1 application; "Learner" iff at least 1 enrollment; "Active Job Seeker" iff at least 5 applications; "Course Enthusiast" iff at least 3 enrollments. Each larger threshold implies the smaller one. |
| ProfileLive.AchievementsMonotone | src/pages/ProfileLive.tsx:230-234 | More applications or enrollments never lock an achievement. |
| ProfileLive.RoleDisplaySpec | src/pages/ProfileLive.tsx:135 | The display string has the role's length. It equals the role with only its first `_` replaced by a space, except that word-initial letters are upper case. |
| ProfileLive.RoleDisplayJobSeeker | src/pages/ProfileLive.tsx:135 | "job_seeker" displays as "Job Seeker". |
| ProfileLive.ProfilePage.FetchUserData | src/pages/ProfileLive.tsx:49-91 | No viewer: nothing. Otherwise the applications are stored, then the enrollments, each as data or `[]`. An error on the applications skips the enrollments and keeps both lists. `loading` ends false either way. When both queries answer, the achievements tab is `Achievements` of the two fetched counts. |
| AddJobDialog.SalaryOrNull | src/components/AddJobDialog.tsx:44 | An empty salary is null; any other value passes through unchanged. |
| AddJobDialog.ParseRequirementsSpec | src/components/AddJobDialog.tsx:45 | An empty string gives no requirements. Otherwise there is one per comma-separated piece (comma count + 1, empty pieces kept), each the trimmed piece, without commas or surrounding whitespace. |
| AddJobDialog.ParseRequirementsKeepsEmptyPieces | src/components/AddJobDialog.tsx:45 | "Go, ,Go" parses to "Go", "", "Go". |
| AddJobDialog.BuildJobRecord | src/components/AddJobDialog.tsx:37-46 | `employer_id` is the viewer. Title, company, description, location and type are copied verbatim. The salary is null iff empty. The requirements are the parsed field, so there are none iff the field is empty. |
| AddJobDialog.JobDialog.HandleSubmit | src/components/AddJobDialog.tsx:31-67 | No viewer: no insert and no state change. On success the row is appended, the dialog closes, the form resets (type "full_time"), the callback fires once and "Job posted successfully!" is shown. On a failure, raised or returned in `error` and then thrown, the form and open state are kept and the message (or "Failed to post job") is shown. `loading` ends false. |
| Backend.Store.SavedJobIds | src/pages/JobsLive.tsx:52-60 | The id set holds exactly the jobs the viewer has a saved pair for. |
| Backend.Store.AppliedJobIds | src/pages/JobsLive.tsx:56-61 | The id set holds exactly the jobs the viewer has applied to. |
| Backend.Store.EnrolledCourseIds | src/pages/CoursesLive.tsx:51-55 | The id set holds exactly the courses the viewer is enrolled in. |
| Backend.Store.InsertSaved | src/pages/JobsLive.tsx:95-96 | The call's own raise, or 23505 for an existing pair, is raised. A returned failure comes back in `error`. Only a call that goes through adds the row. |
| Backend.Store.DeleteSaved | src/pages/JobsLive.tsx:88-91 | A call that goes through removes exactly the (viewer, job) pair; deleting nothing is no error. Otherwise the call raises or returns its failure and nothing changes. |
| Backend.Store.InsertApplication | src/pages/JobsLive.tsx:112-122 | Adds the row only when the call goes through and the (job, applicant) pair is new; an existing pair raises 23505. A failed call raises or returns its failure. It keeps one application per pair. |
| Backend.Store.InsertEnrollment | src/pages/CoursesLive.tsx:78-97 | Adds the row only when the call goes through and the (course, student) pair is new; an existing pair raises 23505. A failed call raises or returns its failure. It keeps one enrollment per pair. |
| Backend.Store.UpdateStudentCount | src/pages/CoursesLive.tsx:89-91 | A call that goes through sets the course's count to the given value, and a missing course row is left alone. Otherwise nothing changes. |
| Backend.Store.InsertJob | src/components/AddJobDialog.tsx:37-48 | Appends the row when the call goes through. Otherwise it raises, or returns the failure in `error`. |
| Backend.AddApplicationKeepsUnique | src/pages/JobsLive.tsx:122 | Adding an application for a fresh pair keeps one application per (job, applicant) pair. |
| Backend.AddEnrollmentKeepsUnique | src/pages/CoursesLive.tsx:97 | Adding an enrollment for a fresh pair keeps one enrollment per (course, student) pair. |
| Text.Trim | src/components/AddJobDialog.tsx:45 | The result is a contiguous part of the input. Everything cut from either end is whitespace, and the result neither starts nor ends with whitespace. |
| Text.TrimIdempotent | src/components/AddJobDialog.tsx:45 | Trimming twice is trimming once. |
| Text.SplitCount | src/components/AddJobDialog.tsx:45 | `split(",")` gives one more piece than there are commas. |
| Text.SplitPiecesHaveNoSeparator | src/components/AddJobDialog.tsx:45 | No piece contains the separator. |
| Text.JoinSplit | src/components/AddJobDialog.tsx:45 | Joining the pieces of a split with its separator gives back the input. |
| Text.SplitJoin | src/components/AddJobDialog.tsx:45 | Splitting a join of separator-free pieces gives back the pieces. |
| Text.IncludesIffOccurs | src/pages/JobsLive.tsx:131-133 | `includes` holds iff the term occurs at some position. |
| Text.ToLowerIdempotent | src/pages/JobsLive.tsx:131-133 | Lower-casing twice is lower-casing once. |
| Text.ReplaceFirstSpec | src/pages/ProfileLive.tsx:135 | `replace("_", " ")` changes only the first `_`, and changes nothing when there is none. |
| Lists.FilterMembership | src/pages/JobsLive.tsx:130 | An element is in the filtered list iff it is in the list and kept. |
| Lists.FilterIsSubsequence | src/pages/CoursesLive.tsx:105 | The filtered list is an order-preserving subsequence. |
| Lists.Find | src/pages/JobsLive.tsx:85 | `find` gives the first accepted element, and gives nothing iff none is accepted. |

## Left out

- The backend client itself, with its queries, `is_active` filter, ordering and row contents. Listing answers are parameters. The model does not check that they are sorted; the order lemmas take it as a premise.
- A relationship query that returns an error has null data, which is the "no data" case of `FetchJobs` and `FetchCourses`; the source never inspects those `error` fields. A relationship query that raises is not modelled. In the source its `await` rejects into the `catch` (src/pages/JobsLive.tsx:71-72, src/pages/CoursesLive.tsx:64-65), which shows the "Failed to fetch" toast and keeps the old list.
- Toast rendering, React state scheduling and rendering, counts shown on screen, navigation to `/auth`, and the form's per-keystroke `onChange` edits. `HandleSubmit` takes the form as it is.
- Concurrency and async interleaving: one handler runs at a time. The re-fetch that the source fires without awaiting is modelled as running to completion inside the handler. The under-counted `student_count` from two concurrent enrollments is therefore not modelled.
- Floating point: the course `rating` and `price`, and the course dialog, whose record depends on `parseFloat`/`parseInt`.
- Full Unicode `toLowerCase` and the regular expression `\b\w`. Lower-casing is ASCII only. `\w` is the ASCII word class, which is what JavaScript uses without the `u` flag. `trim` uses the full ECMAScript whitespace set.
- Dates and locale formatting. Timestamps are integers.
- The placeholder pages (home, static jobs, courses, profile, community), the navigation bar and the router show or route data and hold no logic of this layer.
- Whether a given client reports a duplicate pair by raising or by returning `error` is not decided here. The model raises 23505 for a duplicate that reaches the table, which is the case the pages' `catch` blocks are written for. A returned duplicate is `Returns(DuplicateKey)`.
- Row columns the pages never read (`is_active`, `employer_id` on fetched jobs) are not part of `Job`.
- The course `price` and `rating` are only displayed (src/pages/CoursesLive.tsx:175, 188). They are floats, which the floating-point line above leaves out, so they are not part of `Course`.
- `has`, `Set` and `map` over the relationship rows are modelled directly as set comprehensions over the store (`SavedJobIds` and its siblings).

## Findings

| source | as written | input that shows it | evidently intended | confidence | as-written member | corrected member |
|---|---|---|---|---|---|---|
| src/pages/JobsLive.tsx:134 | Choosing "All Types" sets the type filter to the non-empty string `"all"`, compared for equality with each job's `job_type` | any jobs, filter "All Types": no job has type `"all"`, so the list is empty | "All Types" means no type criterion | not executed | JobsLive.AllTypesKeepsOnlyTypeAll | JobsLive.AllTypesIntendedIgnoresType |
| src/pages/CoursesLive.tsx:109 | Choosing "All Levels" sets the level filter to `"all"`, compared for equality with each course's `level` | any courses, filter "All Levels": the list is empty | "All Levels" means no level criterion | not executed | CoursesLive.AllLevelsKeepsOnlyLevelAll | CoursesLive.AllLevelsIntendedIgnoresLevel |

`FilterJobsIntended` and `FilterCoursesIntended` are the corrected filters. `FilterJobsIntendedSpec` and `FilterCoursesIntendedSpec` state what they keep.

## Notes on the code

- Courses are listed newest first: the code orders them by `created_at` (src/pages/CoursesLive.tsx:45), not by rating.
- With no viewer, the fetched rows are stored as they are. Rows from the `jobs` and `courses` tables carry no flags, which are `undefined` (`None` here) and which the page treats as false. `FetchJobs` and `FetchCourses` keep rows unflagged, and `UnflaggedShowsNothing` gives the consequence.
- Only the dialog reads the reply's `error`. In the pages, a write that fails without raising takes the success path. `handleApply` then reports "Application submitted successfully!" with nothing stored. `handleEnroll` then writes `student_count + 1` with no enrollment stored. `HandleApply` and `HandleEnroll` state both behaviours.
