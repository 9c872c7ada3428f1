/** `POST /api/jobs/apply`: a signed-in user submits one of their active
    CVs to a job.  A fixed chain of guards runs first, and the first one
    that fails decides the reply; only when all pass is one `PENDING`
    application inserted. */
module ApplyRoute {
  import opened Common
  import opened Seqs
  import opened Schema
  import opened Database

  /** The user owns a CV with this id, and it is `ACTIVE`. */
  predicate ApplicableCv(t: Tables, cvId: Id, userId: Id) {
    exists c :: c in t.cvs && c.id == cvId && c.userId == userId && c.status == Active
  }

  /** The user already has an application for this job. */
  predicate HasApplied(t: Tables, jobId: Id, userId: Id) {
    exists a :: a in t.applications && a.jobId == jobId && a.userId == userId
  }

  /** The first CV, in table order, with the given id that the user owns
      and that is `ACTIVE`. */
  function FindApplicableCv(t: Tables, cvId: Id, userId: Id): (r: Option<Cv>)
    ensures r.Some? ==> r.value in t.cvs && r.value.id == cvId && r.value.userId == userId && r.value.status == Active
    ensures r.None? <==> !ApplicableCv(t, cvId, userId)
  {
    match FindFirst(t.cvs, (c: Cv) => c.id == cvId && c.userId == userId && c.status == Active)
    case None => None
    case Some(k) => Some(t.cvs[k])
  }

  /** The first application, in table order, of the user to the job. */
  function FindApplication(t: Tables, jobId: Id, userId: Id): (r: Option<Application>)
    ensures r.Some? ==> r.value in t.applications && r.value.jobId == jobId && r.value.userId == userId
    ensures r.None? <==> !HasApplied(t, jobId, userId)
  {
    match FindFirst(t.applications, (a: Application) => a.jobId == jobId && a.userId == userId)
    case None => None
    case Some(k) => Some(t.applications[k])
  }

  /** The guard chain, in the handler's order: session (401), both fields
      (400), job (404), the user's own active CV (404, whether the CV is
      missing, someone else's or inactive), no earlier application for
      this job (400).  `None` means every guard passed. */
  function ApplyGuard(t: Tables, session: Option<Principal>, jobId: Option<string>, cvId: Option<string>): (r: Option<Code>)
    ensures session.None? ==> r == Some(Unauthorized)
    ensures session.Some? && !(Present(jobId) && Present(cvId)) ==> r == Some(BadRequest)
    ensures session.Some? && Present(jobId) && Present(cvId) ==>
              r == if jobId.value !in JobIds(t) then Some(NotFound)
                   else if !ApplicableCv(t, cvId.value, session.value.id) then Some(NotFound)
                   else if HasApplied(t, jobId.value, session.value.id) then Some(BadRequest)
                   else None
  {
    if session.None? then Some(Unauthorized)
    else if !Present(jobId) || !Present(cvId) then Some(BadRequest)
    else if FindJob(t, jobId.value).None? then Some(NotFound)
    else if FindApplicableCv(t, cvId.value, session.value.id).None? then Some(NotFound)
    else if FindApplication(t, jobId.value, session.value.id).Some? then Some(BadRequest)
    else None
  }

  /** The handler.  `newId` and `now` are the id and `createdAt` the
      database assigns to the new row. */
  method Post(db: Store, session: Option<Principal>, jobId: Option<string>, cvId: Option<string>, newId: Id, now: nat)
    returns (r: Reply<Application>)
    requires db.Valid()
    modifies db
    ensures db.Valid() && db.assets == old(db.assets)
    ensures var g := ApplyGuard(old(db.Snapshot()), session, jobId, cvId);
            g.Some? ==> r == Fail(g.value)
    ensures var g := ApplyGuard(old(db.Snapshot()), session, jobId, cvId);
            g.None? ==> (r.Ok? <==> newId !in ApplicationIds(old(db.Snapshot())) && session.value.id in UserIds(old(db.Snapshot())))
    ensures r.Fail? && ApplyGuard(old(db.Snapshot()), session, jobId, cvId).None? ==> r.code == Internal
    ensures r.Ok? ==> session.Some? && Present(jobId) && Present(cvId) &&
                      r.value == Application(newId, jobId.value, session.value.id, cvId.value, Pending, now)
    ensures r.Ok? ==> db.Snapshot() == old(db.Snapshot()).(applications := old(db.applications) + [r.value])
    ensures r.Fail? ==> db.Snapshot() == old(db.Snapshot())
  {
    var g := ApplyGuard(db.Snapshot(), session, jobId, cvId);
    if g.Some? {
      return Fail(g.value);
    }
    var application := Application(newId, jobId.value, session.value.id, cvId.value, Pending, now);
    var ok := db.CreateApplication(application);
    if ok {
      r := Ok(application);
    } else {
      r := Fail(Internal);
    }
  }

  // ---------------------------------------------------------------- properties

  /** A field the body leaves out and a field sent as the empty string
      are both missing: either gets 400 before any lookup. */
  lemma AbsentOrEmptyFieldIsMissing(t: Tables, p: Principal, jobId: Option<string>, cvId: Option<string>)
    ensures ApplyGuard(t, Some(p), None, cvId) == Some(BadRequest)
    ensures ApplyGuard(t, Some(p), Some(""), cvId) == Some(BadRequest)
    ensures ApplyGuard(t, Some(p), jobId, None) == Some(BadRequest)
    ensures ApplyGuard(t, Some(p), jobId, Some("")) == Some(BadRequest)
  {
  }

  /** The tables after `a` is inserted. */
  function WithApplication(t: Tables, a: Application): Tables {
    t.(applications := t.applications + [a])
  }

  /** A second identical submission is refused as a duplicate. */
  lemma ApplyTwiceRejected(t: Tables, session: Option<Principal>, jobId: Option<string>, cvId: Option<string>, a: Application)
    requires ApplyGuard(t, session, jobId, cvId).None?
    requires session.Some? && a.jobId == jobId.value && a.userId == session.value.id
    ensures ApplyGuard(WithApplication(t, a), session, jobId, cvId) == Some(BadRequest)
  {
    var t' := WithApplication(t, a);
    assert a in t'.applications;
    assert JobIds(t') == JobIds(t);
    assert t'.cvs == t.cvs;
  }

  /** The applications a user has for a job. */
  function ApplicationsFor(apps: seq<Application>, jobId: Id, userId: Id): seq<Application> {
    Filter(apps, (a: Application) => a.jobId == jobId && a.userId == userId)
  }

  /** After a successful submission the (job, user) pair has exactly one
      application. */
  lemma {:induction false} SubmissionIsTheOnlyOne(t: Tables, session: Option<Principal>, jobId: Option<string>, cvId: Option<string>, a: Application)
    requires ApplyGuard(t, session, jobId, cvId).None?
    requires session.Some? && a.jobId == jobId.value && a.userId == session.value.id
    ensures ApplicationsFor(WithApplication(t, a).applications, a.jobId, a.userId) == [a]
  {
    var p := (x: Application) => x.jobId == a.jobId && x.userId == a.userId;
    forall k | 0 <= k < |t.applications| ensures !p(t.applications[k]) {
      assert t.applications[k] in t.applications;
    }
    FilterKeepsNone(t.applications, p);
    FilterAppend(t.applications, [a], p);
    assert Filter([a], p) == [a] by {
      assert [a][1..] == [];
    }
  }

  /** No two applications share a (job, user) pair. */
  predicate UniquePairs(apps: seq<Application>) {
    forall i, j :: 0 <= i < j < |apps| ==>
      !(apps[i].jobId == apps[j].jobId && apps[i].userId == apps[j].userId)
  }

  /** One request at a time, submission keeps the pairs unique. */
  lemma SubmissionKeepsPairsUnique(t: Tables, session: Option<Principal>, jobId: Option<string>, cvId: Option<string>, a: Application)
    requires UniquePairs(t.applications)
    requires ApplyGuard(t, session, jobId, cvId).None?
    requires session.Some? && a.jobId == jobId.value && a.userId == session.value.id
    ensures UniquePairs(WithApplication(t, a).applications)
  {
    var s := WithApplication(t, a).applications;
    forall i, j | 0 <= i < j < |s|
      ensures !(s[i].jobId == s[j].jobId && s[i].userId == s[j].userId)
    {
      if j == |t.applications| {
        assert s[i] in t.applications;
      } else {
        assert s[i] == t.applications[i] && s[j] == t.applications[j];
      }
    }
  }

  /** A submission that passes the guards names a CV the user owns and
      that is active; a CV of another user is refused with 404. */
  lemma SubmittedCvIsOwnAndActive(t: Tables, session: Option<Principal>, jobId: Option<string>, cvId: Option<string>)
    requires session.Some? && Present(jobId) && Present(cvId) && jobId.value in JobIds(t)
    ensures ApplyGuard(t, session, jobId, cvId).None? ==>
              exists c :: c in t.cvs && c.id == cvId.value && c.userId == session.value.id && c.status == Active
    ensures (forall c :: c in t.cvs && c.id == cvId.value ==> c.userId != session.value.id) ==>
              ApplyGuard(t, session, jobId, cvId) == Some(NotFound)
  {
  }
}
