/**
 * `JobPostActivityService`: input normalisation, the choice of repository
 * query, the ownership-checked mutations of the job store, and the per-viewer
 * decoration of result lists.
 *
 * The repository's query methods are not modelled by what they return: a call
 * to one of them is the value of `RepoQuery` naming the query and its
 * arguments. The rows such a query returns are an input (`found`) wherever
 * the model decorates them.
 */
module Service {
  import opened Wrappers
  import opened JavaText
  import opened Streams
  import opened Jobs

  /* ------------------------------------------------------------------ *
   *  Keyword and location normalisation                                *
   * ------------------------------------------------------------------ */

  /**
   * The normalisation as the source writes it: `null` unless
   * `StringUtils.hasText`, otherwise `trim()`. `hasText` and `trim` disagree on
   * which characters are blank, so the result may be empty or keep
   * whitespace at its ends (see `TrimMayLeaveBlankOrPaddedKeyword`).
   */
  function NormalizeTextAsWritten(s: Option<string>): (r: Option<string>)
    ensures r.Some? <==> HasText(s)
    ensures r.Some? && r.value != [] ==> r.value[0] > ' ' && r.value[|r.value| - 1] > ' '
  {
    if HasText(s) then Some(Trim(s.value)) else None
  }

  /**
   * Two inputs that pass the `hasText` test and come out of `trim()` unfit
   * for a keyword: a lone U+0001 becomes the empty keyword, and a keyword led
   * by an ideographic space (U+3000) keeps it.
   */
  lemma TrimMayLeaveBlankOrPaddedKeyword()
    ensures NormalizeTextAsWritten(Some("\U{1}")) == Some("")
    ensures IsWhitespace('\U{3000}')
    ensures NormalizeTextAsWritten(Some("\U{3000}Dev")) == Some("\U{3000}Dev")
  {
    var ctl := "\U{1}";
    assert !IsWhitespace(ctl[0]);
    assert Trim(ctl) == [];
    var padded := "\U{3000}Dev";
    assert !IsWhitespace(padded[1]);
    assert LeadingRun(padded, IsTrimmable) == 0;
    assert padded[0..] == padded;
    assert TrailingRun(padded, IsTrimmable) == 0;
    assert Trim(padded) == padded;
  }

  /**
   * Keyword and location normalisation: `None` when the input has no text,
   * otherwise the input without its leading and trailing whitespace, which is
   * never empty and starts and ends with a non-whitespace character. Uses
   * `strip()` where the source uses `trim()`; see `TrimMayLeaveBlankOrPaddedKeyword`.
   */
  function NormalizeText(s: Option<string>): (r: Option<string>)
    ensures r.Some? <==> HasText(s)
    ensures r.Some? ==> r.value != [] && !IsWhitespace(r.value[0]) && !IsWhitespace(r.value[|r.value| - 1])
    ensures r.Some? ==> |r.value| <= |s.value|
  {
    if HasText(s) then Some(Strip(s.value)) else None
  }

  /** Stripping with two character classes that agree on every character of `s` gives the same result. */
  lemma {:induction false} StripWithAgreeing(s: string, p: char -> bool, q: char -> bool)
    requires forall k :: 0 <= k < |s| ==> p(s[k]) == q(s[k])
    ensures StripWith(s, p) == StripWith(s, q)
  {
    LeadingRunAgreeing(s, p, q);
    var t := s[LeadingRun(s, p)..];
    TrailingRunAgreeing(t, p, q);
  }

  lemma {:induction false} LeadingRunAgreeing(s: string, p: char -> bool, q: char -> bool)
    requires forall k :: 0 <= k < |s| ==> p(s[k]) == q(s[k])
    ensures LeadingRun(s, p) == LeadingRun(s, q)
  {
    if s != [] && p(s[0]) {
      LeadingRunAgreeing(s[1..], p, q);
    }
  }

  lemma {:induction false} TrailingRunAgreeing(s: string, p: char -> bool, q: char -> bool)
    requires forall k :: 0 <= k < |s| ==> p(s[k]) == q(s[k])
    ensures TrailingRun(s, p) == TrailingRun(s, q)
  {
    if s != [] && p(s[|s| - 1]) {
      TrailingRunAgreeing(s[..|s| - 1], p, q);
    }
  }

  /**
   * The correction changes nothing on inputs where `trim()` and
   * `Character.isWhitespace` agree on every character (plain ASCII text
   * without control characters other than tab, line feed, vertical tab, form
   * feed and carriage return, for one).
   */
  lemma CorrectionAgreesWhereClassesAgree(s: Option<string>)
    requires s.Some? ==> forall k :: 0 <= k < |s.value| ==> IsTrimmable(s.value[k]) == IsWhitespace(s.value[k])
    ensures NormalizeText(s) == NormalizeTextAsWritten(s)
  {
    if s.Some? {
      StripWithAgreeing(s.value, IsWhitespace, IsTrimmable);
    }
  }

  /* ------------------------------------------------------------------ *
   *  Facet lists (`filtered`)                                          *
   * ------------------------------------------------------------------ */

  /** An element `filtered` keeps: not null, and with text once trimmed. */
  predicate Keeps(o: Option<string>)
    ensures Keeps(o) ==> o.Some? && IsCleanText(Trim(o.value))
    ensures o.Some? && Trim(o.value) == [] ==> !Keeps(o)
  {
    o.Some? && !IsBlank(Trim(o.value))
  }

  /** A string with text that `trim()` would leave unchanged at both ends. */
  predicate IsCleanText(s: string) {
    !IsBlank(s) && s != [] && s[0] > ' ' && s[|s| - 1] > ' '
  }

  /** `t` is the trimmed form of some element of `xs` that has text once trimmed. */
  predicate ComesFromInput(xs: seq<Option<string>>, t: string) {
    exists o :: o in xs && Keeps(o) && Trim(o.value) == t
  }

  /**
   * The first three stages of `filtered`: drop nulls, trim, drop blanks. Every
   * element is the trimmed form of a kept input, and every kept input's
   * trimmed form is there.
   */
  function Cleaned(xs: seq<Option<string>>): (r: seq<string>)
    ensures forall k :: 0 <= k < |r| ==> IsCleanText(r[k])
    ensures forall k :: 0 <= k < |r| ==> ComesFromInput(xs, r[k])
    ensures forall o :: o in xs && Keeps(o) ==> Trim(o.value) in r
  {
    if xs == [] then []
    else
      var rest := Cleaned(xs[1..]);
      var r := if Keeps(xs[0]) then [Trim(xs[0].value)] + rest else rest;
      CleanedStepIsClean(xs, rest, r);
      CleanedStepHasSources(xs, rest, r);
      CleanedStepCovers(xs, rest, r);
      r
  }

  /** `Cleaned` of a single element: its trimmed form when it has text once trimmed, otherwise nothing. */
  lemma CleanedSingleton(o: Option<string>)
    ensures Cleaned([o]) == if Keeps(o) then [Trim(o.value)] else []
  {
    assert [o][1..] == [];
  }

  /**
   * `Cleaned` works element by element and keeps the input's order: cleaning
   * a concatenation concatenates the cleaned parts.
   */
  lemma {:induction false} CleanedConcat(a: seq<Option<string>>, b: seq<Option<string>>)
    ensures Cleaned(a + b) == Cleaned(a) + Cleaned(b)
  {
    if a == [] {
      assert a + b == b;
    } else {
      assert (a + b)[0] == a[0];
      assert (a + b)[1..] == a[1..] + b;
      CleanedConcat(a[1..], b);
    }
  }

  /** One step of `Cleaned`: every element of the result is clean text. */
  lemma CleanedStepIsClean(xs: seq<Option<string>>, rest: seq<string>, r: seq<string>)
    requires xs != []
    requires forall k :: 0 <= k < |rest| ==> IsCleanText(rest[k])
    requires r == if Keeps(xs[0]) then [Trim(xs[0].value)] + rest else rest
    ensures forall k :: 0 <= k < |r| ==> IsCleanText(r[k])
  {
  }

  /** One step of `Cleaned`: every element of the result comes from an input with text. */
  lemma CleanedStepHasSources(xs: seq<Option<string>>, rest: seq<string>, r: seq<string>)
    requires xs != []
    requires forall k :: 0 <= k < |rest| ==> ComesFromInput(xs[1..], rest[k])
    requires r == if Keeps(xs[0]) then [Trim(xs[0].value)] + rest else rest
    ensures forall k :: 0 <= k < |r| ==> ComesFromInput(xs, r[k])
  {
    var off := if Keeps(xs[0]) then 1 else 0;
    forall k | 0 <= k < |r|
      ensures ComesFromInput(xs, r[k])
    {
      if k < off {
        assert xs[0] in xs && Trim(xs[0].value) == r[k];
      } else {
        assert r[k] == rest[k - off];
        var o :| o in xs[1..] && Keeps(o) && Trim(o.value) == rest[k - off];
        assert o in xs;
      }
    }
  }

  /** One step of `Cleaned`: every input with text is represented in the result. */
  lemma CleanedStepCovers(xs: seq<Option<string>>, rest: seq<string>, r: seq<string>)
    requires xs != []
    requires forall o :: o in xs[1..] && Keeps(o) ==> Trim(o.value) in rest
    requires r == if Keeps(xs[0]) then [Trim(xs[0].value)] + rest else rest
    ensures forall o :: o in xs && Keeps(o) ==> Trim(o.value) in r
  {
    forall o | o in xs && Keeps(o)
      ensures Trim(o.value) in r
    {
      if o == xs[0] {
        assert r[0] == Trim(o.value);
      } else {
        assert o in xs[1..];
      }
    }
  }

  /**
   * `filtered`: no nulls, no blanks and no duplicates; every element is the
   * trimmed form of some input element, and every input element that has text
   * once trimmed is represented.
   */
  function Filtered(xs: seq<Option<string>>): (r: seq<string>)
    ensures NoDuplicates(r)
    ensures forall k :: 0 <= k < |r| ==> IsCleanText(r[k])
    ensures forall k :: 0 <= k < |r| ==> ComesFromInput(xs, r[k])
    ensures forall o :: o in xs && Keeps(o) ==> Trim(o.value) in r
  {
    var c := Cleaned(xs);
    DistinctCovers(c);
    Distinct(c)
  }

  /** `filtered` keeps the first-occurrence order of the cleaned elements. */
  lemma FilteredKeepsFirstOccurrenceOrder(xs: seq<Option<string>>)
    ensures InFirstOccurrenceOrder(Filtered(xs), Cleaned(xs))
  {
    DistinctKeepsFirstOccurrenceOrder(Cleaned(xs));
  }

  /** A facet list as `search` receives it: `null` becomes the empty list, anything else is `filtered`. */
  function NormalizeFacets(list: Option<seq<Option<string>>>): (r: seq<string>)
    ensures list.None? ==> r == []
    ensures IsFacetList(r)
  {
    if list.None? then [] else Filtered(list.value)
  }

  /* ------------------------------------------------------------------ *
   *  Repository queries                                                *
   * ------------------------------------------------------------------ */

  /** The arguments of the seeker search queries, in the repository's parameter order. */
  datatype Criteria = Criteria(keyword: Option<string>, location: Option<string>, remotes: seq<string>, types: seq<string>)

  /** The repository queries the core issues. */
  datatype RepoQuery =
    | FindAllByPostedDateDesc
    | SearchWithoutDate(criteria: Criteria)
    | SearchSince(criteria: Criteria, since: int)
    | FindOwnByPostedDateDesc(owner: int)
    | SearchOwn(owner: int, ownKeyword: Option<string>, ownLocation: Option<string>)
    | SearchByKeyword(keyword: Option<string>, location: Option<string>)

  /**
   * A keyword or location as `trim()` leaves it: absent, or empty, or with
   * both ends above U+0020.
   */
  predicate IsTrimmedText(t: Option<string>) {
    t.Some? && t.value != [] ==> t.value[0] > ' ' && t.value[|t.value| - 1] > ' '
  }

  /** A keyword or location fit for a query: absent, or non-empty without whitespace at its ends. */
  predicate IsNormalText(t: Option<string>) {
    t.Some? ==> t.value != [] && !IsWhitespace(t.value[0]) && !IsWhitespace(t.value[|t.value| - 1])
  }

  /** A facet list fit for a query: clean, distinct strings. */
  predicate IsFacetList(l: seq<string>) {
    NoDuplicates(l) && forall k :: 0 <= k < |l| ==> IsCleanText(l[k])
  }

  /** Search arguments as `search` prepares them: trimmed keyword and location, filtered facet lists. */
  predicate Trimmed(c: Criteria) {
    IsTrimmedText(c.keyword) && IsTrimmedText(c.location) && IsFacetList(c.remotes) && IsFacetList(c.types)
  }

  /** Search arguments as they are meant to be: keyword and location stripped and never empty, filtered facet lists. */
  predicate Normalised(c: Criteria) {
    IsNormalText(c.keyword) && IsNormalText(c.location) && IsFacetList(c.remotes) && IsFacetList(c.types)
  }

  /** The query is restricted to the jobs posted by `owner`. */
  predicate OwnerScoped(q: RepoQuery, owner: int) {
    (q.FindOwnByPostedDateDesc? || q.SearchOwn?) && q.owner == owner
  }

  /**
   * `search`: one seeker query. Without a date it is `searchWithoutDate`,
   * with a date it is the dated search from that day. Keyword and location
   * are present exactly when they have text and are then trimmed; the facet
   * lists are `filtered`, and an absent list is empty.
   */
  function Search(job: Option<string>, location: Option<string>,
                  types: Option<seq<Option<string>>>, remotes: Option<seq<Option<string>>>,
                  searchDate: Option<int>): (q: RepoQuery)
    ensures q.SearchWithoutDate? || q.SearchSince?
    ensures q.SearchSince? <==> searchDate.Some?
    ensures q.SearchSince? ==> q.since == searchDate.value
    ensures q.criteria == Criteria(NormalizeTextAsWritten(job), NormalizeTextAsWritten(location),
                                   NormalizeFacets(remotes), NormalizeFacets(types))
    ensures Trimmed(q.criteria)
    ensures q.criteria.keyword.Some? <==> HasText(job)
    ensures q.criteria.location.Some? <==> HasText(location)
  {
    var kw := NormalizeTextAsWritten(job);
    var loc := NormalizeTextAsWritten(location);
    var ts := NormalizeFacets(types);
    var rs := NormalizeFacets(remotes);
    if searchDate.None? then SearchWithoutDate(Criteria(kw, loc, rs, ts))
    else SearchSince(Criteria(kw, loc, rs, ts), searchDate.value)
  }

  /**
   * `search` with the corrected keyword normalisation (`strip()` in place of
   * `trim()`): the arguments are `Normalised`, and the query differs from
   * `Search` in the keyword and location only.
   */
  function SearchCorrected(job: Option<string>, location: Option<string>,
                           types: Option<seq<Option<string>>>, remotes: Option<seq<Option<string>>>,
                           searchDate: Option<int>): (q: RepoQuery)
    ensures q.SearchWithoutDate? || q.SearchSince?
    ensures Normalised(q.criteria)
    ensures q.criteria.keyword.Some? <==> HasText(job)
    ensures q.criteria.location.Some? <==> HasText(location)
    ensures q.(criteria := q.criteria.(keyword := NormalizeTextAsWritten(job), location := NormalizeTextAsWritten(location)))
            == Search(job, location, types, remotes, searchDate)
  {
    var criteria := Criteria(NormalizeText(job), NormalizeText(location), NormalizeFacets(remotes), NormalizeFacets(types));
    if searchDate.None? then SearchWithoutDate(criteria) else SearchSince(criteria, searchDate.value)
  }

  /**
   * The corrected search issues the very query of `search` whenever keyword
   * and location hold no character on which `trim()` and
   * `Character.isWhitespace` disagree.
   */
  lemma SearchCorrectionAgrees(job: Option<string>, location: Option<string>,
                               types: Option<seq<Option<string>>>, remotes: Option<seq<Option<string>>>,
                               searchDate: Option<int>)
    requires job.Some? ==> forall k :: 0 <= k < |job.value| ==> IsTrimmable(job.value[k]) == IsWhitespace(job.value[k])
    requires location.Some? ==>
               forall k :: 0 <= k < |location.value| ==> IsTrimmable(location.value[k]) == IsWhitespace(location.value[k])
    ensures SearchCorrected(job, location, types, remotes, searchDate) == Search(job, location, types, remotes, searchDate)
  {
    CorrectionAgreesWhereClassesAgree(job);
    CorrectionAgreesWhereClassesAgree(location);
  }

  /** `getRecruiterOwnJobs`: all jobs of the signed-in user, newest first; fails when nobody is signed in. */
  function GetRecruiterOwnJobs(user: Option<int>): (r: Result<RepoQuery, Error>)
    ensures r.Failure? <==> user.None?
    ensures r.Failure? ==> r.error == NotLoggedIn
    ensures r.Success? ==> OwnerScoped(r.value, user.value) && r.value.FindOwnByPostedDateDesc?
  {
    if user.None? then Failure(NotLoggedIn) else Success(FindOwnByPostedDateDesc(user.value))
  }

  /**
   * `searchRecruiterOwn`: the signed-in user's jobs filtered by keyword and
   * location, each absent when blank and trimmed otherwise; fails when
   * nobody is signed in.
   */
  function SearchRecruiterOwn(user: Option<int>, job: Option<string>, location: Option<string>): (r: Result<RepoQuery, Error>)
    ensures r.Failure? <==> user.None?
    ensures r.Failure? ==> r.error == NotLoggedIn
    ensures r.Success? ==> OwnerScoped(r.value, user.value) && r.value.SearchOwn?
    ensures r.Success? ==> r.value.ownKeyword == NormalizeTextAsWritten(job) && r.value.ownLocation == NormalizeTextAsWritten(location)
    ensures r.Success? ==> (r.value.ownKeyword.Some? <==> HasText(job)) && (r.value.ownLocation.Some? <==> HasText(location))
    ensures r.Success? ==> IsTrimmedText(r.value.ownKeyword) && IsTrimmedText(r.value.ownLocation)
  {
    if user.None? then Failure(NotLoggedIn)
    else Success(SearchOwn(user.value, NormalizeTextAsWritten(job), NormalizeTextAsWritten(location)))
  }

  /**
   * The query `searchOnly` issues: every job, newest first, when neither
   * keyword nor location has text, otherwise the keyword search on both,
   * each absent when blank and trimmed otherwise.
   */
  function SearchOnlyQuery(job: Option<string>, location: Option<string>): (q: RepoQuery)
    ensures q.FindAllByPostedDateDesc? <==> !HasText(job) && !HasText(location)
    ensures !q.FindAllByPostedDateDesc? ==>
              q == SearchByKeyword(NormalizeTextAsWritten(job), NormalizeTextAsWritten(location))
    ensures q.SearchByKeyword? ==> IsTrimmedText(q.keyword) && IsTrimmedText(q.location)
  {
    var j := NormalizeTextAsWritten(job);
    var l := NormalizeTextAsWritten(location);
    if j.None? && l.None? then FindAllByPostedDateDesc else SearchByKeyword(j, l)
  }

  /* ------------------------------------------------------------------ *
   *  Per-viewer decoration                                             *
   * ------------------------------------------------------------------ */

  /**
   * `decorateWithUserFlags`: for a job seeker, sets every job's flags from
   * the seeker's histories (records with a null job never match); a null
   * list, an empty list and any other viewer's list are left as they are.
   * The list itself keeps its length and order.
   */
  method DecorateWithUserFlags(jobs: array?<Job>, profile: Profile)
    modifies jobs
    ensures jobs != null && profile.SeekerProfile? ==>
              forall k :: 0 <= k < jobs.Length ==> jobs[k] == Decorated(old(jobs[k]), profile.applied, profile.saved)
    ensures jobs != null && !profile.SeekerProfile? ==> jobs[..] == old(jobs[..])
  {
    if jobs == null || jobs.Length == 0 {
      return;
    }
    if profile.SeekerProfile? {
      var applied, saved := profile.applied, profile.saved;
      var i := 0;
      while i < jobs.Length
        invariant 0 <= i <= jobs.Length
        invariant forall k :: 0 <= k < i ==> jobs[k] == Decorated(old(jobs[k]), applied, saved)
        invariant forall k :: i <= k < jobs.Length ==> jobs[k] == old(jobs[k])
      {
        var job := jobs[i];
        var isApplied := Some(job.id) in applied;
        var isSaved := Some(job.id) in saved;
        jobs[i] := job.(isActive := isApplied, isSaved := isSaved);
        i := i + 1;
      }
    }
  }

  /**
   * `searchOnly`: issues `SearchOnlyQuery` and decorates the rows it returns
   * (`found`) for the current viewer.
   */
  method SearchOnly(job: Option<string>, location: Option<string>, profile: Profile, found: array<Job>)
    returns (q: RepoQuery)
    modifies found
    ensures q == SearchOnlyQuery(job, location)
    ensures profile.SeekerProfile? ==>
              forall k :: 0 <= k < found.Length ==> found[k] == Decorated(old(found[k]), profile.applied, profile.saved)
    ensures !profile.SeekerProfile? ==> found[..] == old(found[..])
  {
    q := SearchOnlyQuery(job, location);
    DecorateWithUserFlags(found, profile);
  }

  /* ------------------------------------------------------------------ *
   *  Ownership-checked mutation                                        *
   * ------------------------------------------------------------------ */

  /** The eleven business fields a recruiter edits. */
  function BusinessFields(j: Job): (string, string, string, string, string, Option<int>, Option<int>, string, string, string, string) {
    (j.title, j.jobType, j.remote, j.salary, j.description, j.locationId, j.companyId,
     j.experience, j.certificate, j.field, j.number)
  }

  /** What identifies a post and is never edited: id, owner and posting day. */
  function Identity(j: Job): (int, Option<int>, Option<int>) {
    (j.id, j.postedBy, j.postedDate)
  }

  /**
   * The setters `updateFromForm` applies: the result has the form's business
   * fields and the job's identity and flags.
   */
  function ApplyForm(job: Job, form: Job): (r: Job)
    ensures BusinessFields(r) == BusinessFields(form)
    ensures Identity(r) == Identity(job)
    ensures r.isActive == job.isActive && r.isSaved == job.isSaved
  {
    job.(title := form.title, jobType := form.jobType, remote := form.remote, salary := form.salary,
         description := form.description, locationId := form.locationId, companyId := form.companyId,
         experience := form.experience, certificate := form.certificate, field := form.field,
         number := form.number)
  }

  /** Business fields, identity and flags determine a job, so `ApplyForm` changes those eleven fields and nothing else. */
  lemma ApplyFormIsDeterminedByItsFields(job: Job, form: Job, r: Job)
    requires BusinessFields(r) == BusinessFields(form) && Identity(r) == Identity(job)
    requires r.isActive == job.isActive && r.isSaved == job.isSaved
    ensures r == ApplyForm(job, form)
  {
  }

  /** Two updates in a row leave what the second form says: the last writer wins. */
  lemma LastFormWins(job: Job, first: Job, second: Job)
    ensures ApplyForm(ApplyForm(job, first), second) == ApplyForm(job, second)
  {
  }

  /** The ownership check of `updateFromForm` and `delete`: someone is signed in and is the job's owner. */
  predicate MayModify(job: Job, current: Option<int>)
    ensures MayModify(job, current) ==> current.Some? && job.postedBy == current
    ensures current.None? || job.postedBy.None? ==> !MayModify(job, current)
  {
    current.Some? && job.postedBy.Some? && job.postedBy.value == current.value
  }

  /** An update never moves a job to another owner, so whoever may modify a job still may afterwards, and nobody else. */
  lemma UpdateKeepsWhoMayModify(job: Job, form: Job, current: Option<int>)
    ensures MayModify(ApplyForm(job, form), current) <==> MayModify(job, current)
  {
  }

  /** The service over the repository's job rows. */
  class JobPostActivityService {
    /** The job rows, by id. */
    var jobs: map<int, Job>

    /** An empty store. */
    constructor()
      ensures Valid() && jobs == map[]
    {
      jobs := map[];
    }

    /** Every row is stored under its own id. */
    ghost predicate Valid()
      reads this
    {
      forall id :: id in jobs ==> jobs[id].id == id
    }

    /** `getOne`: the stored job, or "Job not found". */
    method GetOne(id: int) returns (r: Result<Job, Error>)
      ensures r.Success? <==> id in jobs
      ensures r.Success? ==> r.value == jobs[id]
      ensures r.Failure? ==> r.error == JobNotFound
    {
      if id in jobs {
        r := Success(jobs[id]);
      } else {
        r := Failure(JobNotFound);
      }
    }

    /**
     * `updateFromForm`: a missing job fails with "Job not found"; a caller who
     * is not signed in or not the owner fails with the ownership error; both
     * leave the store as it was. Otherwise exactly the job under `id` takes
     * the form's business fields.
     */
    method UpdateFromForm(id: int, form: Job, current: Option<int>) returns (r: Outcome<Error>)
      requires Valid()
      modifies this
      ensures Valid()
      ensures id !in old(jobs) ==> r == Fail(JobNotFound)
      ensures id in old(jobs) && !MayModify(old(jobs)[id], current) ==> r == Fail(Forbidden)
      ensures r.Fail? ==> jobs == old(jobs)
      ensures id in old(jobs) && MayModify(old(jobs)[id], current) ==>
                r == Pass && jobs == old(jobs)[id := ApplyForm(old(jobs)[id], form)]
    {
      var found := GetOne(id);
      if found.Failure? {
        return Fail(found.error);
      }
      var job := found.value;
      if !MayModify(job, current) {
        return Fail(Forbidden);
      }
      job := ApplyForm(job, form);
      jobs := jobs[job.id := job];
      r := Pass;
    }

    /**
     * `delete`: the same checks as `updateFromForm`, with the store unchanged
     * on failure; on success exactly the row under `id` is removed.
     */
    method Delete(id: int, current: Option<int>) returns (r: Outcome<Error>)
      requires Valid()
      modifies this
      ensures Valid()
      ensures id !in old(jobs) ==> r == Fail(JobNotFound)
      ensures id in old(jobs) && !MayModify(old(jobs)[id], current) ==> r == Fail(Forbidden)
      ensures r.Fail? ==> jobs == old(jobs)
      ensures id in old(jobs) && MayModify(old(jobs)[id], current) ==>
                r == Pass && jobs == old(jobs) - {id}
    {
      var found := GetOne(id);
      if found.Failure? {
        return Fail(found.error);
      }
      var job := found.value;
      if !MayModify(job, current) {
        return Fail(Forbidden);
      }
      jobs := jobs - {job.id};
      r := Pass;
    }

    /** `addNew`: saves the job under its id and returns it. */
    method AddNew(job: Job) returns (saved: Job)
      requires Valid()
      modifies this
      ensures Valid()
      ensures saved == job && jobs == old(jobs)[job.id := job]
    {
      jobs := jobs[job.id := job];
      saved := job;
    }
  }
}
