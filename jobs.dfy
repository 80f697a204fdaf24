/**
 * The job post entity (`JobPostActivity`) and what a viewer's history says
 * about it. Ids, owners and dates are plain integers: a user is known by its
 * user id and a date by its day number.
 */
module Jobs {
  import opened Wrappers

  /**
   * A job post. The first field is the identity; the next eleven are the
   * business fields a recruiter edits; `postedBy` and `postedDate` are the
   * owner and the posting day; `isActive` and `isSaved` are per-viewer flags
   * (applied to, saved) that are not stored with the post.
   */
  datatype Job = Job(
    id: int,
    title: string,
    jobType: string,
    remote: string,
    salary: string,
    description: string,
    locationId: Option<int>,
    companyId: Option<int>,
    experience: string,
    certificate: string,
    field: string,
    number: string,
    postedBy: Option<int>,
    postedDate: Option<int>,
    isActive: bool,
    isSaved: bool)

  /** The exceptions the core throws: "Job not found", the ownership `SecurityException`, and "not signed in". */
  datatype Error = JobNotFound | Forbidden | NotLoggedIn

  /**
   * A seeker's apply or save records, each given by the id of the job it
   * points at, or `None` for a record whose job is null.
   */
  type History = seq<Option<int>>

  /** The current user's profile: none, a recruiter's, or a job seeker's with their histories. */
  datatype Profile = NoProfile | RecruiterProfile | SeekerProfile(applied: History, saved: History)

  /** Every record of `h` points at a job. */
  predicate EveryRecordHasJob(h: History) {
    forall k :: 0 <= k < |h| ==> h[k].Some?
  }

  /**
   * `anyMatch` over `h` with a predicate that reads each record's job id
   * without a null check, as the dashboard does. It stops at the first record
   * pointing at `id` (true) and reports `None`, the NullPointerException, when
   * it reaches a record with a null job before any match.
   */
  function DereferencingMatch(h: History, id: int): (r: Option<bool>)
    ensures r.Some? ==> (r.value <==> Some(id) in h)
    ensures r.None? <==> exists k :: 0 <= k < |h| && h[k].None? && forall j :: 0 <= j < k ==> h[j] != Some(id)
    ensures EveryRecordHasJob(h) ==> r.Some?
  {
    if h == [] then Some(false)
    else if h[0].None? then None
    else if h[0].value == id then Some(true)
    else
      var r := DereferencingMatch(h[1..], id);
      assert forall k :: 0 < k < |h| ==> h[k] == h[1..][k - 1];
      if r.None? then
        var k :| 0 <= k < |h[1..]| && h[1..][k].None? && forall j :: 0 <= j < k ==> h[1..][j] != Some(id);
        assert h[k + 1].None? && forall j :: 0 <= j < k + 1 ==> h[j] != Some(id);
        r
      else r
  }

  /**
   * `job` as shown to a seeker with the given histories: `isActive` is set
   * exactly when some apply record points at the job, `isSaved` exactly when
   * some save record does, and every other field is left alone.
   */
  function Decorated(job: Job, applied: History, saved: History): (d: Job)
    ensures d.isActive <==> exists k :: 0 <= k < |applied| && applied[k] == Some(job.id)
    ensures d.isSaved <==> exists k :: 0 <= k < |saved| && saved[k] == Some(job.id)
    ensures d.(isActive := job.isActive, isSaved := job.isSaved) == job
  {
    job.(isActive := Some(job.id) in applied, isSaved := Some(job.id) in saved)
  }

  /** A seeker who has applied to and saved nothing sees every flag cleared. */
  lemma EmptyHistoriesClearFlags(job: Job)
    ensures !Decorated(job, [], []).isActive && !Decorated(job, [], []).isSaved
  {
  }

  /** Records whose job is null never set a flag, wherever they stand in either history. */
  lemma JoblessRecordsAreIgnored(job: Job, a1: History, a2: History, s1: History, s2: History)
    ensures Decorated(job, a1 + [None] + a2, s1 + [None] + s2) == Decorated(job, a1 + a2, s1 + s2)
  {
    JoblessRecordIsNoMatch(job.id, a1, a2);
    JoblessRecordIsNoMatch(job.id, s1, s2);
  }

  /** A record whose job is null never points at `id`. */
  lemma JoblessRecordIsNoMatch(id: int, h1: History, h2: History)
    ensures Some(id) in h1 + [None] + h2 <==> Some(id) in h1 + h2
  {
    var with, without := h1 + [None] + h2, h1 + h2;
    if Some(id) in with {
      var k :| 0 <= k < |with| && with[k] == Some(id);
      if k < |h1| {
        assert without[k] == Some(id);
      } else {
        assert without[k - 1] == Some(id);
      }
    }
    if Some(id) in without {
      var k :| 0 <= k < |without| && without[k] == Some(id);
      if k < |h1| {
        assert with[k] == Some(id);
      } else {
        assert with[k + 1] == Some(id);
      }
    }
  }

  /**
   * With one application to job `a` and one saved job `b`, a result list of
   * `a`, `b` and a third job `c` is flagged applied = {a}, saved = {b}.
   */
  lemma AppliedAndSavedScenario(a: Job, b: Job, c: Job)
    requires a.id != b.id && a.id != c.id && b.id != c.id
    ensures var da, db, dc := Decorated(a, [Some(a.id)], [Some(b.id)]),
                              Decorated(b, [Some(a.id)], [Some(b.id)]),
                              Decorated(c, [Some(a.id)], [Some(b.id)]);
            da.isActive && !da.isSaved && !db.isActive && db.isSaved && !dc.isActive && !dc.isSaved
  {
  }
}
