# NextJobs job-post search and management, modelled in Dafny

This project models the core of the NextJobs job board: the job-post
controller and its service. In the source they are
`JobPostActivityController` and `JobPostActivityService`.

**The dashboard search (`searchJobs`).**
- A recruiter is sent to their own jobs, with or without a keyword/location search.
- Everybody else goes down the seeker path. The three recency boxes give a cutoff day.
- A type or work-mode dimension whose parameters are all absent defaults to every marker.
- When nothing narrows the search, the "get all" fast path lists every job, newest first.
- Otherwise `search` runs with prepared arguments:
  - the keyword and location are absent unless they have text, and are otherwise cut with `trim()`;
  - each facet list is cleaned of nulls and blanks and duplicates are dropped, first occurrence kept.
- For a job seeker, each returned row is then flagged as applied to and/or saved, and a `daysAgoMap` from job id to days since posting is built.

**The global search (`globalSearch`)** is the seeker path for everyone, with the `daysAgoMap`.

**`searchOnly`** lists every job when neither keyword nor location has text, otherwise runs the keyword search, and decorates its rows.

**The ownership-checked update and delete** (`updateFromForm`, `delete`), `getOne`, and `addNew` with its owner and date stamping.

## How it is modelled

- **Modules:**
  - `Wrappers`: `Option`, `Result` and `Outcome`.
  - `JavaText`: the JDK's `Character.isWhitespace`, `String.trim`, `String.strip`, `isBlank` and Spring's `StringUtils.hasText`.
  - `Streams`: `Stream.distinct`.
  - `Jobs`: the `JobPostActivity` entity, the viewer's histories and the per-viewer flags.
  - `Service`: `JobPostActivityService`.
  - `FilterResolution`: the controller's request-parameter logic.
  - `Controller`: the two search pages and `addNew`.
- **Values for pure code.** Pure code (normalisation, filter resolution, query choice) is modelled as functions. A Java `null` is `None`.
- **Queries as values.** The repository is not modelled as a database. A service call yields the `RepoQuery` value it issues: which repository method it calls, with which arguments.
- **Rows as a parameter.** The rows a query returns are a parameter (`found: array<Job>`). The controller's and service's loops update those rows in place, as the Java code mutates the entities in the result list.
- **The store is a class.** `Service.JobPostActivityService` is a class whose field `jobs: map<int, Job>` stands for the stored rows by id. `UpdateFromForm`, `Delete` and `AddNew` change that map.
- **Explicit inputs.** The signed-in user, their profile and "today" are explicit parameters:
  - `current` / `user`: `Option<int>` user ids;
  - `profile`: `Profile`;
  - `now`: a day number.

## Model

| member | source | states |
|---|---|---|
| JavaText.IsWhitespace | src/main/java/com/luv2code/jobportal/services/JobPostActivityService.java:58-59 | `Character.isWhitespace`: space, tab, line feed and carriage return are whitespace; the no-break spaces and U+0085 are not; nothing between U+0021 and U+167F is |
| JavaText.IsBlank | src/main/java/com/luv2code/jobportal/services/JobPostActivityService.java:112-113 | `isBlank`: the empty string is blank, and a blank string starts and ends with whitespace |
| JavaText.HasText | src/main/java/com/luv2code/jobportal/services/JobPostActivityService.java:58-59 | `StringUtils.hasText`: holds exactly when the string is present and `strip()` leaves something, and then the string is non-empty |
| JavaText.LeadingRun | src/main/java/com/luv2code/jobportal/services/JobPostActivityService.java:58-59 | the count of leading characters a trim removes: within bounds, all of them dropped, and the next one kept |
| JavaText.TrailingRun | src/main/java/com/luv2code/jobportal/services/JobPostActivityService.java:58-59 | the same for the trailing characters |
| JavaText.StripWith | src/main/java/com/luv2code/jobportal/services/JobPostActivityService.java:58-59 | the result is the contiguous middle of the input; it is empty exactly when every character is dropped, and otherwise its ends are not dropped |
| JavaText.Trim | src/main/java/com/luv2code/jobportal/services/JobPostActivityService.java:58-59 | `String.trim`: empty exactly when every character is <= U+0020, otherwise both ends are > U+0020 |
| JavaText.Strip | src/main/java/com/luv2code/jobportal/services/JobPostActivityService.java:58-59 | `String.strip`: empty exactly when the input is blank, otherwise both ends are not whitespace |
| JavaText.CleanWordIsKept | src/main/java/com/luv2code/jobportal/services/JobPostActivityService.java:73-74 | a word with text and no trimmable ends is unchanged by trim and has text |
| Streams.FirstIndex | src/main/java/com/luv2code/jobportal/services/JobPostActivityService.java:75 | the position of the first occurrence: in range, holds the element, and no earlier position does |
| Streams.Distinct | src/main/java/com/luv2code/jobportal/services/JobPostActivityService.java:75 | `distinct()`: every output element comes from the input, none twice, and it is no longer than the input |
| Streams.DistinctCovers | src/main/java/com/luv2code/jobportal/services/JobPostActivityService.java:75 | every input element survives `distinct()` |
| Streams.DistinctKeepsFirstOccurrenceOrder | src/main/java/com/luv2code/jobportal/services/JobPostActivityService.java:75 | the output lists elements in the order of their first occurrences in the input |
| Streams.DistinctOfDistinct | src/main/java/com/luv2code/jobportal/services/JobPostActivityService.java:75 | a list without duplicates is its own `distinct()` |
| Jobs.DereferencingMatch | src/main/java/com/luv2code/jobportal/controller/JobPostActivityController.java:155-158 | the controller's `anyMatch` over the histories: true exactly when a record points at the job; it fails (the null dereference) exactly when a jobless record comes before any match; and it never fails when every record has a job |
| Jobs.Decorated | src/main/java/com/luv2code/jobportal/services/JobPostActivityService.java:180-190 | applied exactly when some apply record points at the job, saved exactly when some save record does, all other fields unchanged |
| Jobs.EmptyHistoriesClearFlags | src/main/java/com/luv2code/jobportal/services/JobPostActivityService.java:180-190 | a seeker with no records sees no flag set |
| Jobs.JoblessRecordsAreIgnored | src/main/java/com/luv2code/jobportal/services/JobPostActivityService.java:182-186 | a record whose job is null, at any position of either history, never changes either flag |
| Jobs.AppliedAndSavedScenario | src/main/java/com/luv2code/jobportal/services/JobPostActivityService.java:180-190 | one application to a and one save of b flag a, b, c as applied {a} and saved {b} |
| Service.NormalizeTextAsWritten | src/main/java/com/luv2code/jobportal/services/JobPostActivityService.java:58-59 | the keyword normalisation as written (`hasText` then `trim`): present exactly when the input has text |
| Service.TrimMayLeaveBlankOrPaddedKeyword | src/main/java/com/luv2code/jobportal/services/JobPostActivityService.java:58-59 | as written, U+0001 becomes the empty keyword and "U+3000 Dev" keeps its whitespace |
| Service.NormalizeText | src/main/java/com/luv2code/jobportal/services/JobPostActivityService.java:58-59 | the corrected normalisation: present exactly when the input has text, non-empty, no whitespace at either end, never longer than the input |
| Service.StripWithAgreeing | src/main/java/com/luv2code/jobportal/services/JobPostActivityService.java:58-59 | stripping with two character classes that agree on the input gives the same result |
| Service.CorrectionAgreesWhereClassesAgree | src/main/java/com/luv2code/jobportal/services/JobPostActivityService.java:58-59 | the correction and the code as written agree on every input where `trim` and `isWhitespace` classify each character alike |
| Service.Keeps | src/main/java/com/luv2code/jobportal/services/JobPostActivityService.java:72-74 | an element `filtered` keeps is present and its trimmed form is clean text; one that trims to nothing is dropped |
| Service.Cleaned | src/main/java/com/luv2code/jobportal/services/JobPostActivityService.java:71-74 | null filter, trim and blank filter: each output is the clean trimmed form of an input with text, and every such input is represented |
| Service.CleanedSingleton | src/main/java/com/luv2code/jobportal/services/JobPostActivityService.java:71-74 | one element is kept as its trimmed form exactly when it has text once trimmed, and dropped otherwise |
| Service.CleanedConcat | src/main/java/com/luv2code/jobportal/services/JobPostActivityService.java:71-74 | the null, trim and blank stages work element by element in input order: cleaning a concatenation concatenates the cleaned parts |
| Service.Filtered | src/main/java/com/luv2code/jobportal/services/JobPostActivityService.java:70-77 | `filtered`: no duplicates, only clean text, each element the trimmed form of some input with text, and every such input represented |
| Service.FilteredKeepsFirstOccurrenceOrder | src/main/java/com/luv2code/jobportal/services/JobPostActivityService.java:70-77 | `filtered` lists the cleaned values in the order of their first occurrences; with `CleanedConcat` that is the input order |
| Service.NormalizeFacets | src/main/java/com/luv2code/jobportal/services/JobPostActivityService.java:61-62 | a null facet list becomes the empty list, and every result is a list of distinct clean strings |
| Service.Search | src/main/java/com/luv2code/jobportal/services/JobPostActivityService.java:51-68 | the undated query exactly when there is no search date, otherwise the dated query from that day; keyword and location are present exactly when they have text and are then trimmed (empty or with both ends above U+0020); the facet lists are `filtered`, an absent one empty |
| Service.SearchCorrected | src/main/java/com/luv2code/jobportal/services/JobPostActivityService.java:51-68 | `search` with `strip()` in place of `trim()`: keyword and location are present exactly when they have text, never empty and free of whitespace at both ends, and the query differs from `Search` in keyword and location only |
| Service.SearchCorrectionAgrees | src/main/java/com/luv2code/jobportal/services/JobPostActivityService.java:58-59 | the corrected search issues the same query as `search` whenever keyword and location hold no character on which `trim()` and `isWhitespace` disagree |
| Service.GetRecruiterOwnJobs | src/main/java/com/luv2code/jobportal/services/JobPostActivityService.java:97-104 | fails with "not signed in" exactly when nobody is signed in, otherwise lists only the user's own jobs |
| Service.SearchRecruiterOwn | src/main/java/com/luv2code/jobportal/services/JobPostActivityService.java:107-115 | fails exactly when nobody is signed in; otherwise searches only the user's own jobs, with keyword and location present exactly when they have text and then trimmed |
| Service.SearchOnlyQuery | src/main/java/com/luv2code/jobportal/services/JobPostActivityService.java:158-164 | every job exactly when neither keyword nor location has text; otherwise the keyword search, each argument absent when blank and trimmed otherwise |
| Service.DecorateWithUserFlags | src/main/java/com/luv2code/jobportal/services/JobPostActivityService.java:171-194 | for a seeker, every row becomes its decorated form; for anyone else, rows are unchanged |
| Service.SearchOnly | src/main/java/com/luv2code/jobportal/services/JobPostActivityService.java:158-168 | issues `SearchOnlyQuery` and decorates the rows as above |
| Service.ApplyForm | src/main/java/com/luv2code/jobportal/services/JobPostActivityService.java:129-139 | the eleven business fields come from the form; id, owner, date and flags stay the job's |
| Service.ApplyFormIsDeterminedByItsFields | src/main/java/com/luv2code/jobportal/services/JobPostActivityService.java:129-139 | any job with the form's business fields and the job's identity and flags is the update's result, so nothing else changes |
| Service.LastFormWins | src/main/java/com/luv2code/jobportal/services/JobPostActivityService.java:129-139 | two updates in a row leave the second form's fields |
| Service.MayModify | src/main/java/com/luv2code/jobportal/services/JobPostActivityService.java:123-124 | the ownership check passes only when someone is signed in and owns the job, and fails when nobody is signed in or the job has no owner |
| Service.UpdateKeepsWhoMayModify | src/main/java/com/luv2code/jobportal/services/JobPostActivityService.java:123-139 | after an update, exactly the same users pass the ownership check |
| Service.JobPostActivityService.constructor | src/main/java/com/luv2code/jobportal/services/JobPostActivityService.java:24-32 | a new service starts over an empty store, which is well formed |
| Service.JobPostActivityService.GetOne | src/main/java/com/luv2code/jobportal/services/JobPostActivityService.java:41-44 | the stored job when the id is stored, otherwise "Job not found" |
| Service.JobPostActivityService.UpdateFromForm | src/main/java/com/luv2code/jobportal/services/JobPostActivityService.java:119-143 | unknown id gives "not found" and a non-owner is forbidden, leaving the store unchanged; the owner's update replaces only that row with `ApplyForm` |
| Service.JobPostActivityService.Delete | src/main/java/com/luv2code/jobportal/services/JobPostActivityService.java:146-155 | the same checks, and the owner's delete removes exactly that row |
| Service.JobPostActivityService.AddNew | src/main/java/com/luv2code/jobportal/services/JobPostActivityService.java:36-39 | saves the job under its id and returns it |
| FilterResolution.RecencyCutoff | src/main/java/com/luv2code/jobportal/controller/JobPostActivityController.java:106-109 | the cutoff is never after today |
| FilterResolution.RecencyIsWidestWindow | src/main/java/com/luv2code/jobportal/controller/JobPostActivityController.java:106-109 | the cutoff is absent exactly when no box is ticked, otherwise it is the widest ticked window before today |
| FilterResolution.MoreRecencyFlagsNeverNarrow | src/main/java/com/luv2code/jobportal/controller/JobPostActivityController.java:270-273 | ticking more boxes only moves the cutoff back |
| FilterResolution.ResolveTypes | src/main/java/com/luv2code/jobportal/controller/JobPostActivityController.java:111-117 | defaulted exactly when all four type parameters are absent, and then all four markers; otherwise the raw parameters |
| FilterResolution.ResolveWorkModes | src/main/java/com/luv2code/jobportal/controller/JobPostActivityController.java:118-123 | the same for the three work-mode parameters |
| FilterResolution.SeekerDispatch | src/main/java/com/luv2code/jobportal/controller/JobPostActivityController.java:101-135 | the seeker path calls `getAll` or `search`; `getAll` only without a recency box, keyword text or location text; `search` gets the raw keyword and location and the recency cutoff |
| FilterResolution.FastPathExactlyWhenUnfiltered | src/main/java/com/luv2code/jobportal/controller/JobPostActivityController.java:126-135 | "get all" exactly when nothing narrows the search, otherwise `search` with the resolved arguments |
| FilterResolution.DashboardDispatch | src/main/java/com/luv2code/jobportal/controller/JobPostActivityController.java:84-135 | a recruiter gets one of their own-jobs calls, everybody else "get all" or `search` |
| FilterResolution.RecruiterIgnoresSeekerFilters | src/main/java/com/luv2code/jobportal/controller/JobPostActivityController.java:88-98 | a recruiter's call depends on keyword and location only, and is the unfiltered own list exactly when neither has text |
| Controller.Execute | src/main/java/com/luv2code/jobportal/controller/JobPostActivityController.java:88-135 | the call becomes the repository query; it fails exactly for a recruiter call when nobody is signed in |
| Controller.RecruiterSeesOnlyOwnJobs | src/main/java/com/luv2code/jobportal/controller/JobPostActivityController.java:88-98 | a recruiter's dashboard fails exactly when nobody is signed in, otherwise queries only their own jobs, unfiltered exactly without keyword and location text |
| Controller.SeekerQueryIsEverythingExactlyWhenUnfiltered | src/main/java/com/luv2code/jobportal/controller/JobPostActivityController.java:101-135 | a seeker's dashboard never fails; it lists everything exactly when unfiltered, and otherwise runs a search with trimmed keyword and location and filtered facet lists, dated exactly when a recency box is ticked |
| Controller.FilteredKeepsMarkers | src/main/java/com/luv2code/jobportal/controller/JobPostActivityController.java:111-123 | the canonical markers pass the null, trim and blank stages unchanged |
| Controller.FilteredMarkers | src/main/java/com/luv2code/jobportal/controller/JobPostActivityController.java:111-123 | distinct canonical markers come out of `filtered` unchanged |
| Controller.DefaultedTypesSelectEveryType | src/main/java/com/luv2code/jobportal/controller/JobPostActivityController.java:111-117 | no type parameter means the search filters on exactly the four types |
| Controller.DefaultedWorkModesSelectEveryMode | src/main/java/com/luv2code/jobportal/controller/JobPostActivityController.java:118-123 | no work-mode parameter means the search filters on exactly the three modes |
| Controller.EveryTypeTickedMatchesNoneTicked | src/main/java/com/luv2code/jobportal/controller/JobPostActivityController.java:111-135 | ticking all four types gives the same type list as ticking none, but never the fast path |
| Controller.BlankTypesAreNotDefaulted | src/main/java/com/luv2code/jobportal/controller/JobPostActivityController.java:111-117 | blank type parameters are not defaulted and reach the repository as an empty list |
| Controller.DaysAgo | src/main/java/com/luv2code/jobportal/controller/JobPostActivityController.java:145-152 | 0 without a posting date, otherwise the days from posting to today |
| Controller.DaysAgoMapOf | src/main/java/com/luv2code/jobportal/controller/JobPostActivityController.java:142-153 | every entry of the map is the days-since-posting of some result row, under that row's id |
| Controller.DaysAgoMapCoversResults | src/main/java/com/luv2code/jobportal/controller/JobPostActivityController.java:142-153 | the map's keys are exactly the ids of the result rows |
| Controller.DaysAgoMapValue | src/main/java/com/luv2code/jobportal/controller/JobPostActivityController.java:142-153 | a row's entry is its own days-since-posting unless a later row has the same id |
| Controller.SearchJobs | src/main/java/com/luv2code/jobportal/controller/JobPostActivityController.java:84-164 | the dispatched call and its query, which fails exactly for a recruiter nobody is signed in as; for a seeker, every row decorated and the map built from the rows; otherwise rows unchanged and no map |
| Controller.GlobalSearch | src/main/java/com/luv2code/jobportal/controller/JobPostActivityController.java:238-325 | the seeker call for everyone, a query that never fails, and a `daysAgoMap` with an entry for every row |
| Controller.Stamp | src/main/java/com/luv2code/jobportal/controller/JobPostActivityController.java:183-187 | the owner becomes the signed-in user if any, otherwise is kept; a missing date becomes today, an existing one is kept; nothing else changes |
| Controller.StampIsIdempotent | src/main/java/com/luv2code/jobportal/controller/JobPostActivityController.java:183-187 | stamping twice, even on a later day, equals stamping once |
| Controller.AddNew | src/main/java/com/luv2code/jobportal/controller/JobPostActivityController.java:179-190 | saves the stamped job under its id |

## Left out

- **Spring plumbing.** Model attributes, view names, redirects and the re-binding of checkbox state for the view are left out. They pass values to templates and decide nothing.
- **Security context.** Authentication and the security context become the explicit parameters `isRecruiter`, `current`/`user` and `profile`.
- **Repository semantics.** The repository's queries (the JPQL behind `search`, `searchWithoutDate`, `searchOwn`, `searchByKeyword`, the ordering by date) are left out. Only which query is issued, with which arguments, is modelled. The rows a query returns are an input.
- **Logo upload in `addNew`.** The second save, `FileUploadUtil` and the company logo are file I/O and are left out.
- **Transactions.** Transactions and the database's cascade delete of apply/save records are left out.
- **Id generation.** The database's id generation on insert is left out: `AddNew` saves under the id the job carries.
- **Clock and time zones.** The clock and time-zone conversion of `postedDate` are left out. Dates are day numbers, and `now` is a parameter.
- **`getRecruiterJobs`.** It is a DTO projection of a repository query and is not part of this model.
- **Controller wrappers.** The controller's `addJobs`, `editJob`, `updateJob` and `deleteJob` only forward to the service and pick a view. The service members model them.
- **Controller.SearchJobs** requires that, for every row, each history scan meets a match or its end before a record whose job is null. At that point the source throws a NullPointerException partway through decorating; the model does not represent that failure.
- **Jobs.Decorated** compares job ids by value. The service compares them with `==` (`JobPostActivityService.java:183,186`). If the entity's id is a boxed `Integer`, that `==` compares references and can fail for ids outside the JVM's small-integer cache. The entity class is not part of this model.
- **JavaText.IsWhitespace** and the trims work on Unicode scalar values. Java works on UTF-16 code units, and no whitespace character lies outside the Basic Multilingual Plane, so the classification agrees.
- **Entity field types.** The entity's field types are not part of this model. The business fields are strings, and location and company are optional ids.
- **Seeker facet values.** The seeker query passes facet values through as given. The service does not compare them with the markers, so a facet parameter with any text takes part in the filter. This follows the code, where a description of the behaviour would have the filter honour only the marker values.

## Findings

| source | as written | input that shows it | evidently intended | confidence | as-written member | corrected member |
|---|---|---|---|---|---|---|
| src/main/java/com/luv2code/jobportal/services/JobPostActivityService.java:58-59 | keyword and location are tested with `StringUtils.hasText` (`Character.isWhitespace`) but cut with `trim()` (characters up to U+0020); `searchRecruiterOwn` (lines 112-113) and `searchOnly` (lines 159-160) pair `isBlank` with `trim()` the same way | keyword "\u0001" passes `hasText` and becomes the empty keyword ""; keyword U+3000 followed by "Dev" passes and keeps its leading ideographic space | keyword/location absent when blank, otherwise stripped of whitespace at both ends and non-empty (`strip()`) | not executed | Service.NormalizeTextAsWritten, Service.TrimMayLeaveBlankOrPaddedKeyword | Service.NormalizeText, Service.SearchCorrected |

The queries `Service.Search`, `Service.SearchRecruiterOwn` and `Service.SearchOnlyQuery`, and everything the controller builds on them, follow the code as written and use `trim()`. `Service.SearchCorrected` is `search` with the correction. `Service.SearchCorrectionAgrees` shows that the two issue the same query unless keyword or location holds a character on which `trim()` and `isWhitespace` disagree.
