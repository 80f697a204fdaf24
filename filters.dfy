/**
 * Filter resolution of `JobPostActivityController.searchJobs` and
 * `globalSearch`: the raw, optional request parameters become either the
 * unfiltered "get all" call or a `search` call with resolved facet lists and
 * recency cutoff; a recruiter is sent to their own jobs instead.
 */
module FilterResolution {
  import opened Wrappers
  import opened JavaText

  const PartTime: string := "Part-Time"
  const FullTime: string := "Full-Time"
  const Freelance: string := "Freelance"
  const Internship: string := "Internship"
  const RemoteOnly: string := "Remote-Only"
  const OfficeOnly: string := "Office-Only"
  const PartialRemote: string := "Partial-Remote"

  /** The canonical job-type markers, in the order the controller lists them. */
  const TypeMarkers: seq<string> := [PartTime, FullTime, Freelance, Internship]

  /** The canonical work-mode markers, in the order the controller lists them. */
  const WorkModeMarkers: seq<string> := [RemoteOnly, OfficeOnly, PartialRemote]

  /** The request parameters of the dashboard and of the global search; absent strings are `None`. */
  datatype SearchParams = SearchParams(
    job: Option<string>,
    location: Option<string>,
    partTime: Option<string>,
    fullTime: Option<string>,
    freelance: Option<string>,
    internship: Option<string>,
    remoteOnly: Option<string>,
    officeOnly: Option<string>,
    partialRemote: Option<string>,
    today: bool,
    days7: bool,
    days30: bool)

  /** The `JobPostActivityService` call the controller makes. */
  datatype ServiceCall =
    | GetAll
    | Search(job: Option<string>, location: Option<string>,
             types: seq<Option<string>>, remotes: seq<Option<string>>, searchDate: Option<int>)
    | GetRecruiterOwnJobs
    | SearchRecruiterOwn(job: Option<string>, location: Option<string>)

  /** The recency cutoff day for the flags, with `now` as today's day number: 30 days beats 7 days beats today. */
  function RecencyCutoff(today: bool, days7: bool, days30: bool, now: int): (cutoff: Option<int>)
    ensures cutoff.Some? ==> cutoff.value <= now
  {
    if days30 then Some(now - 30)
    else if days7 then Some(now - 7)
    else if today then Some(now)
    else None
  }

  /** The look-back windows, in days, that the flags select. */
  function SelectedWindows(today: bool, days7: bool, days30: bool): set<int> {
    (if today then {0} else {}) + (if days7 then {7} else {}) + (if days30 then {30} else {})
  }

  /**
   * The precedence 30 days > 7 days > today is the same as honouring the
   * widest selected window: no cutoff exactly when no window is selected,
   * otherwise the cutoff lies the widest selected window before `now`.
   */
  lemma RecencyIsWidestWindow(today: bool, days7: bool, days30: bool, now: int)
    ensures var cutoff, windows := RecencyCutoff(today, days7, days30, now), SelectedWindows(today, days7, days30);
            && (cutoff.None? <==> windows == {})
            && (cutoff.Some? ==> now - cutoff.value in windows)
            && (cutoff.Some? ==> forall w :: w in windows ==> w <= now - cutoff.value)
  {
    if !today && !days7 && !days30 {
      assert SelectedWindows(today, days7, days30) == {};
    }
  }

  /** Ticking more recency boxes never narrows the search: the cutoff can only move back in time. */
  lemma MoreRecencyFlagsNeverNarrow(today: bool, days7: bool, days30: bool, today': bool, days7': bool, days30': bool, now: int)
    requires (today ==> today') && (days7 ==> days7') && (days30 ==> days30')
    ensures var c, c' := RecencyCutoff(today, days7, days30, now), RecencyCutoff(today', days7', days30', now);
            c.Some? ==> c'.Some? && c'.value <= c.value
  {
  }

  /** A facet dimension as the controller passes it on: its values, and whether they were defaulted. */
  datatype Facet = Facet(values: seq<Option<string>>, defaulted: bool)

  predicate AllAbsent(xs: seq<Option<string>>) {
    forall k :: 0 <= k < |xs| ==> xs[k].None?
  }

  /** The given markers as request values. */
  function Present(ms: seq<string>): (r: seq<Option<string>>)
    ensures |r| == |ms| && forall k :: 0 <= k < |ms| ==> r[k] == Some(ms[k])
  {
    seq(|ms|, k requires 0 <= k < |ms| => Some(ms[k]))
  }

  /** The four type parameters in the order the controller lists them. */
  function RawTypes(p: SearchParams): seq<Option<string>> {
    [p.partTime, p.fullTime, p.freelance, p.internship]
  }

  /** The three work-mode parameters in the order the controller lists them. */
  function RawWorkModes(p: SearchParams): seq<Option<string>> {
    [p.remoteOnly, p.officeOnly, p.partialRemote]
  }

  /**
   * Type defaulting: when all four type parameters are absent, all four
   * markers, flagged as defaulted; otherwise the four raw values unchanged.
   */
  function ResolveTypes(p: SearchParams): (f: Facet)
    ensures f.defaulted <==> AllAbsent(RawTypes(p))
    ensures f.defaulted ==> f.values == Present(TypeMarkers)
    ensures !f.defaulted ==> f.values == RawTypes(p)
  {
    if p.partTime.None? && p.fullTime.None? && p.freelance.None? && p.internship.None? then
      Facet(Present(TypeMarkers), true)
    else
      var raw := RawTypes(p);
      assert raw[0].Some? || raw[1].Some? || raw[2].Some? || raw[3].Some?;
      Facet([p.partTime, p.fullTime, p.freelance, p.internship], false)
  }

  /**
   * Work-mode defaulting: when all three work-mode parameters are absent, all
   * three markers, flagged as defaulted; otherwise the three raw values unchanged.
   */
  function ResolveWorkModes(p: SearchParams): (f: Facet)
    ensures f.defaulted <==> AllAbsent(RawWorkModes(p))
    ensures f.defaulted ==> f.values == Present(WorkModeMarkers)
    ensures !f.defaulted ==> f.values == RawWorkModes(p)
  {
    if p.officeOnly.None? && p.remoteOnly.None? && p.partialRemote.None? then
      Facet(Present(WorkModeMarkers), true)
    else
      var raw := RawWorkModes(p);
      assert raw[0].Some? || raw[1].Some? || raw[2].Some?;
      Facet([p.remoteOnly, p.officeOnly, p.partialRemote], false)
  }

  /** Nothing narrows the search: no recency flag, no facet parameter, no keyword or location text. */
  predicate Unfiltered(p: SearchParams) {
    && !p.today && !p.days7 && !p.days30
    && AllAbsent(RawTypes(p)) && AllAbsent(RawWorkModes(p))
    && !HasText(p.job) && !HasText(p.location)
  }

  /** The seeker (and anonymous) path of `searchJobs`, and all of `globalSearch`. */
  function SeekerDispatch(p: SearchParams, now: int): (call: ServiceCall)
    ensures call.GetAll? || call.Search?
    ensures call.GetAll? ==> RecencyCutoff(p.today, p.days7, p.days30, now).None? && !HasText(p.job) && !HasText(p.location)
    ensures call.Search? ==>
              && call.job == p.job && call.location == p.location
              && call.searchDate == RecencyCutoff(p.today, p.days7, p.days30, now)
  {
    var cutoff := RecencyCutoff(p.today, p.days7, p.days30, now);
    var types := ResolveTypes(p);
    var modes := ResolveWorkModes(p);
    if cutoff.None? && types.defaulted && modes.defaulted && !HasText(p.job) && !HasText(p.location) then
      GetAll
    else
      Search(p.job, p.location, types.values, modes.values, cutoff)
  }

  /**
   * The "get all" fast path is taken exactly when nothing narrows the search;
   * otherwise `search` receives the raw keyword and location, the resolved
   * facet lists and the recency cutoff.
   */
  lemma FastPathExactlyWhenUnfiltered(p: SearchParams, now: int)
    ensures SeekerDispatch(p, now) == GetAll <==> Unfiltered(p)
    ensures !Unfiltered(p) ==>
              SeekerDispatch(p, now) == Search(p.job, p.location, ResolveTypes(p).values, ResolveWorkModes(p).values,
                                               RecencyCutoff(p.today, p.days7, p.days30, now))
  {
  }

  /** `searchJobs`: a recruiter is sent to their own jobs, everybody else to the seeker path. */
  function DashboardDispatch(p: SearchParams, isRecruiter: bool, now: int): (call: ServiceCall)
    ensures isRecruiter ==> call.GetRecruiterOwnJobs? || call.SearchRecruiterOwn?
    ensures !isRecruiter ==> call.GetAll? || call.Search?
  {
    if isRecruiter then
      if !HasText(p.job) && !HasText(p.location) then GetRecruiterOwnJobs
      else SearchRecruiterOwn(p.job, p.location)
    else
      SeekerDispatch(p, now)
  }

  /**
   * A recruiter's dashboard depends on the keyword and location only: type,
   * work-mode and recency parameters, and the day, make no difference.
   */
  lemma RecruiterIgnoresSeekerFilters(p: SearchParams, q: SearchParams, now: int, now': int)
    requires p.job == q.job && p.location == q.location
    ensures DashboardDispatch(p, true, now) == DashboardDispatch(q, true, now')
    ensures DashboardDispatch(p, true, now) == GetRecruiterOwnJobs <==> !HasText(p.job) && !HasText(p.location)
  {
  }
}
