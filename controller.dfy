/**
 * `JobPostActivityController`: the dashboard and global search end to end
 * (filter resolution, the service query it leads to, the per-viewer loop over
 * the results) and the stamping of new posts.
 *
 * The viewer is an explicit parameter rather than ambient security state, and
 * dates are day numbers with `now` standing for `LocalDate.now()`.
 */
module Controller {
  import opened Wrappers
  import opened JavaText
  import opened Streams
  import opened Jobs
  import S = Service
  import F = FilterResolution

  /** Who asks: whether they hold the recruiter authority, their user id if signed in, and their profile. */
  datatype Viewer = Viewer(isRecruiter: bool, userId: Option<int>, profile: Profile)

  /**
   * The repository query a controller call leads to, for the signed-in
   * `user`. Only the recruiter calls can fail, and only when nobody is signed in.
   */
  function Execute(call: F.ServiceCall, user: Option<int>): (r: Result<S.RepoQuery, Error>)
    ensures r.Failure? <==> (call.GetRecruiterOwnJobs? || call.SearchRecruiterOwn?) && user.None?
  {
    match call
    case GetAll => Success(S.FindAllByPostedDateDesc)
    case Search(job, location, types, remotes, searchDate) =>
      Success(S.Search(job, location, Some(types), Some(remotes), searchDate))
    case GetRecruiterOwnJobs => S.GetRecruiterOwnJobs(user)
    case SearchRecruiterOwn(job, location) => S.SearchRecruiterOwn(user, job, location)
  }

  /**
   * A recruiter's dashboard only ever queries their own jobs: it fails when
   * nobody is signed in, and otherwise the query is scoped to the signed-in
   * user, unfiltered exactly when neither keyword nor location has text.
   */
  lemma RecruiterSeesOnlyOwnJobs(p: F.SearchParams, user: Option<int>, now: int)
    ensures var r := Execute(F.DashboardDispatch(p, true, now), user);
            && (r.Failure? <==> user.None?)
            && (r.Success? ==> S.OwnerScoped(r.value, user.value))
            && (r.Success? ==> (r.value.FindOwnByPostedDateDesc? <==> !HasText(p.job) && !HasText(p.location)))
  {
    F.RecruiterIgnoresSeekerFilters(p, p, now, now);
  }

  /**
   * A seeker's dashboard never fails and is never owner-scoped: it lists
   * every job exactly when nothing narrows the search, and otherwise runs the
   * seeker search with trimmed and filtered criteria, dated exactly when a recency box is ticked.
   */
  lemma SeekerQueryIsEverythingExactlyWhenUnfiltered(p: F.SearchParams, user: Option<int>, now: int)
    ensures var r := Execute(F.DashboardDispatch(p, false, now), user);
            && r.Success?
            && (r.value == S.FindAllByPostedDateDesc <==> F.Unfiltered(p))
            && (!F.Unfiltered(p) ==> (r.value.SearchWithoutDate? || r.value.SearchSince?) && S.Trimmed(r.value.criteria))
            && (!F.Unfiltered(p) ==> (r.value.SearchSince? <==> p.today || p.days7 || p.days30))
  {
    F.FastPathExactlyWhenUnfiltered(p, now);
  }

  /** A marker passes `filtered` unchanged. */
  lemma MarkerIsClean(m: string)
    requires m in F.TypeMarkers + F.WorkModeMarkers
    ensures S.Keeps(Some(m)) && Trim(m) == m
  {
    CleanWordIsKept(m);
  }

  /** Distinct clean markers, given as request values, come out of `filtered` as they went in. */
  lemma {:induction false} FilteredKeepsMarkers(ms: seq<string>)
    requires forall k :: 0 <= k < |ms| ==> ms[k] in F.TypeMarkers + F.WorkModeMarkers
    ensures S.Cleaned(F.Present(ms)) == ms
  {
    if ms != [] {
      MarkerIsClean(ms[0]);
      assert F.Present(ms)[1..] == F.Present(ms[1..]);
      FilteredKeepsMarkers(ms[1..]);
    }
  }

  /** Distinct markers, given as request values, come out of `filtered` unchanged. */
  lemma FilteredMarkers(ms: seq<string>)
    requires NoDuplicates(ms)
    requires forall k :: 0 <= k < |ms| ==> ms[k] in F.TypeMarkers + F.WorkModeMarkers
    ensures S.Filtered(F.Present(ms)) == ms
  {
    FilteredKeepsMarkers(ms);
    DistinctOfDistinct(ms);
  }

  /**
   * With no type parameter, the search filters on all four job types: after
   * the service's normalisation the type list is exactly the four markers.
   */
  lemma DefaultedTypesSelectEveryType(p: F.SearchParams)
    requires F.AllAbsent(F.RawTypes(p))
    ensures S.NormalizeFacets(Some(F.ResolveTypes(p).values)) == F.TypeMarkers
  {
    FilteredMarkers(F.TypeMarkers);
  }

  /**
   * With no work-mode parameter, the search filters on all three work modes:
   * after the service's normalisation the list is exactly the three markers.
   */
  lemma DefaultedWorkModesSelectEveryMode(p: F.SearchParams)
    requires F.AllAbsent(F.RawWorkModes(p))
    ensures S.NormalizeFacets(Some(F.ResolveWorkModes(p).values)) == F.WorkModeMarkers
  {
    FilteredMarkers(F.WorkModeMarkers);
  }

  /**
   * Ticking every type box filters on the same four types as ticking none,
   * but is not a defaulted dimension, so it never takes the fast path.
   */
  lemma EveryTypeTickedMatchesNoneTicked(p: F.SearchParams)
    requires F.RawTypes(p) == F.Present(F.TypeMarkers)
    ensures !F.ResolveTypes(p).defaulted && !F.Unfiltered(p)
    ensures S.NormalizeFacets(Some(F.ResolveTypes(p).values)) == F.TypeMarkers
  {
    assert F.RawTypes(p)[0].Some?;
    FilteredMarkers(F.TypeMarkers);
  }

  /**
   * Type parameters that are present but blank are not defaulted: they reach
   * the repository as an empty type list, not as the four markers.
   */
  lemma BlankTypesAreNotDefaulted(p: F.SearchParams)
    requires F.RawTypes(p) == [Some(""), Some(""), Some(""), Some("")]
    ensures !F.ResolveTypes(p).defaulted
    ensures S.NormalizeFacets(Some(F.ResolveTypes(p).values)) == []
  {
    assert F.RawTypes(p)[0].Some?;
    assert Trim("") == [];
    assert S.Cleaned(F.RawTypes(p)[3..]) == [];
    assert S.Cleaned(F.RawTypes(p)[2..]) == [];
    assert S.Cleaned(F.RawTypes(p)[1..]) == [];
  }

  /* ------------------------------------------------------------------ *
   *  Days since posting                                                *
   * ------------------------------------------------------------------ */

  /** `ChronoUnit.DAYS.between(posted, now)`: the whole days from posting to `now`; 0 without a posting day. */
  function DaysAgo(job: Job, now: int): (d: int)
    ensures job.postedDate.None? ==> d == 0
    ensures job.postedDate.Some? ==> job.postedDate.value + d == now
  {
    if job.postedDate.None? then 0 else now - job.postedDate.value
  }

  /**
   * The `daysAgoMap` after putting the entries for `jobs` in list order:
   * every entry is the days-since-posting of some job of the list under its id.
   */
  function DaysAgoMapOf(jobs: seq<Job>, now: int): (m: map<int, int>)
    ensures forall id :: id in m ==> exists k :: 0 <= k < |jobs| && jobs[k].id == id && m[id] == DaysAgo(jobs[k], now)
    decreases |jobs|
  {
    if jobs == [] then map[]
    else
      var last := jobs[|jobs| - 1];
      DaysAgoMapOf(jobs[..|jobs| - 1], now)[last.id := DaysAgo(last, now)]
  }

  /** Every result job has an entry in `daysAgoMap`, and nothing else does. */
  lemma {:induction false} DaysAgoMapCoversResults(jobs: seq<Job>, now: int)
    ensures DaysAgoMapOf(jobs, now).Keys == set k | 0 <= k < |jobs| :: jobs[k].id
  {
    if jobs != [] {
      var init := jobs[..|jobs| - 1];
      DaysAgoMapCoversResults(init, now);
      var ids := set k | 0 <= k < |jobs| :: jobs[k].id;
      var initIds := set k | 0 <= k < |init| :: init[k].id;
      assert ids == initIds + {jobs[|jobs| - 1].id} by {
        forall id | id in ids ensures id in initIds + {jobs[|jobs| - 1].id} {
          var k :| 0 <= k < |jobs| && jobs[k].id == id;
          if k < |init| {
            assert init[k] == jobs[k];
          }
        }
        forall id | id in initIds ensures id in ids {
          var k :| 0 <= k < |init| && init[k].id == id;
          assert jobs[k] == init[k];
        }
      }
    }
  }

  /**
   * The entry for a job is its own days-since-posting when no later job in
   * the list has the same id (in particular when the ids are distinct).
   */
  lemma {:induction false} DaysAgoMapValue(jobs: seq<Job>, now: int, k: nat)
    requires k < |jobs|
    requires forall j :: k < j < |jobs| ==> jobs[j].id != jobs[k].id
    ensures jobs[k].id in DaysAgoMapOf(jobs, now)
    ensures DaysAgoMapOf(jobs, now)[jobs[k].id] == DaysAgo(jobs[k], now)
  {
    if k < |jobs| - 1 {
      var init := jobs[..|jobs| - 1];
      assert init[k] == jobs[k];
      DaysAgoMapValue(init, now, k);
    }
  }

  /* ------------------------------------------------------------------ *
   *  The two search pages                                              *
   * ------------------------------------------------------------------ */

  /**
   * `searchJobs` (the dashboard): the service call, the repository query it
   * issues (a recruiter call fails when nobody is signed in, where the service
   * throws its `SecurityException`), and the page's rows. `found` stands for
   * the rows the query returns. A recruiter, and a viewer without a seeker
   * profile, get the rows as they are and no `daysAgoMap`. A seeker gets every row flagged
   * from their apply and save records and a `daysAgoMap` with an entry for
   * every row. The controller reads each record's job without a null check,
   * so for every row the scan of each history must reach a match or the end
   * before it reaches a record whose job is null.
   */
  method SearchJobs(p: F.SearchParams, viewer: Viewer, now: int, found: array<Job>)
    returns (call: F.ServiceCall, query: Result<S.RepoQuery, Error>, daysAgo: Option<map<int, int>>)
    requires !viewer.isRecruiter && viewer.profile.SeekerProfile? ==>
               forall k :: 0 <= k < found.Length ==>
                 && DereferencingMatch(viewer.profile.applied, found[k].id).Some?
                 && DereferencingMatch(viewer.profile.saved, found[k].id).Some?
    modifies found
    ensures call == F.DashboardDispatch(p, viewer.isRecruiter, now)
    ensures query == Execute(call, viewer.userId)
    ensures query.Failure? <==> viewer.isRecruiter && viewer.userId.None?
    ensures viewer.isRecruiter || !viewer.profile.SeekerProfile? ==> daysAgo.None? && found[..] == old(found[..])
    ensures !viewer.isRecruiter && viewer.profile.SeekerProfile? ==>
              && daysAgo == Some(DaysAgoMapOf(old(found[..]), now))
              && forall k :: 0 <= k < found.Length ==>
                   found[k] == Decorated(old(found[k]), viewer.profile.applied, viewer.profile.saved)
  {
    call := F.DashboardDispatch(p, viewer.isRecruiter, now);
    query := Execute(call, viewer.userId);
    if viewer.isRecruiter || !viewer.profile.SeekerProfile? {
      return call, query, None;
    }
    var applied, saved := viewer.profile.applied, viewer.profile.saved;
    var m: map<int, int> := map[];
    var i := 0;
    while i < found.Length
      invariant 0 <= i <= found.Length
      invariant m == DaysAgoMapOf(old(found[..])[..i], now)
      invariant forall k :: 0 <= k < i ==> found[k] == Decorated(old(found[k]), applied, saved)
      invariant forall k :: i <= k < found.Length ==> found[k] == old(found[k])
    {
      var job := found[i];
      assert old(found[..])[..i + 1][..i] == old(found[..])[..i];
      m := m[job.id := DaysAgo(job, now)];
      var isApplied := DereferencingMatch(applied, job.id).value;
      var isSaved := DereferencingMatch(saved, job.id).value;
      found[i] := job.(isActive := isApplied, isSaved := isSaved);
      i := i + 1;
    }
    assert old(found[..])[..found.Length] == old(found[..]);
    daysAgo := Some(m);
  }

  /**
   * `globalSearch`: the seeker path whatever the viewer, the query it
   * issues (which never fails), and a `daysAgoMap`
   * with an entry for every row `found` (the rows the call returns).
   */
  method GlobalSearch(p: F.SearchParams, now: int, found: array<Job>)
    returns (call: F.ServiceCall, query: S.RepoQuery, daysAgo: map<int, int>)
    ensures call == F.SeekerDispatch(p, now)
    ensures Execute(call, None) == Success(query)
    ensures daysAgo == DaysAgoMapOf(found[..], now)
    ensures forall k :: 0 <= k < found.Length ==> found[k].id in daysAgo
  {
    call := F.SeekerDispatch(p, now);
    query := Execute(call, None).value;
    daysAgo := map[];
    var i := 0;
    while i < found.Length
      invariant 0 <= i <= found.Length
      invariant daysAgo == DaysAgoMapOf(found[..i], now)
    {
      assert found[..i + 1][..i] == found[..i];
      daysAgo := daysAgo[found[i].id := DaysAgo(found[i], now)];
      i := i + 1;
    }
    assert found[..found.Length] == found[..];
    DaysAgoMapCoversResults(found[..], now);
  }

  /* ------------------------------------------------------------------ *
   *  New posts                                                         *
   * ------------------------------------------------------------------ */

  /**
   * The stamping `addNew` does before saving: the owner becomes the signed-in
   * user when there is one and is kept otherwise; a missing posting day
   * becomes `now` and an existing one is kept; nothing else changes.
   */
  function Stamp(job: Job, current: Option<int>, now: int): (r: Job)
    ensures current.Some? ==> r.postedBy == current
    ensures current.None? ==> r.postedBy == job.postedBy
    ensures r.postedDate == if job.postedDate.Some? then job.postedDate else Some(now)
    ensures r.(postedBy := job.postedBy, postedDate := job.postedDate) == job
  {
    var owned := if current.Some? then job.(postedBy := current) else job;
    if owned.postedDate.None? then owned.(postedDate := Some(now)) else owned
  }

  /** Stamping twice, even on a later day, is stamping once. */
  lemma StampIsIdempotent(job: Job, current: Option<int>, now: int, later: int)
    ensures Stamp(Stamp(job, current, now), current, later) == Stamp(job, current, now)
  {
  }

  /** `addNew`: stamps the post and saves it under its id. */
  method AddNew(service: S.JobPostActivityService, job: Job, current: Option<int>, now: int)
    returns (saved: Job)
    requires service.Valid()
    modifies service
    ensures service.Valid()
    ensures saved == Stamp(job, current, now)
    ensures service.jobs == old(service.jobs)[saved.id := saved]
  {
    var stamped := job;
    if current.Some? {
      stamped := stamped.(postedBy := current);
    }
    if stamped.postedDate.None? {
      stamped := stamped.(postedDate := Some(now));
    }
    saved := service.AddNew(stamped);
  }
}
