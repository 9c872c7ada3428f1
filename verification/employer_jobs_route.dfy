/** `GET` and `POST /api/employer/jobs`: an employer's job postings.  Both
    handlers scope everything to the first company whose member users
    include the signed-in user.  `GET` lists that company's jobs newest
    first, with each job's applications when the query asks for them;
    `POST` creates a job for that company. */
module EmployerJobsRoute {
  import opened Common
  import opened Seqs
  import opened Schema
  import opened Database

  // ---------------------------------------------------------------- company

  /** The company a user acts for: the first company, in table order,
      that has the user as a member. */
  function CompanyOf(t: Tables, userId: Id): (r: Option<Company>)
    ensures r.Some? ==> exists k :: 0 <= k < |t.companies| && t.companies[k] == r.value &&
                          userId in r.value.users &&
                          forall m :: 0 <= m < k ==> userId !in t.companies[m].users
    ensures r.None? <==> forall c :: c in t.companies ==> userId !in c.users
  {
    match FindFirst(t.companies, (c: Company) => userId in c.users)
    case None => None
    case Some(k) => Some(t.companies[k])
  }

  // ---------------------------------------------------------------- GET

  /** The applicant fields and the CV fields the listing selects. */
  datatype UserBrief = UserBrief(name: string, email: string)
  datatype CvBrief = CvBrief(fileName: string, fileUrl: string)

  /** An application row with its applicant and CV cut down. */
  datatype ApplicationView = ApplicationView(application: Application, user: UserBrief, cv: CvBrief)

  /** A job row, with its applications when they were asked for. */
  datatype JobView = JobView(job: Job, applications: Option<seq<ApplicationView>>)

  function JobCreated(j: Job): int { j.createdAt }
  function ApplicationCreated(a: Application): int { a.createdAt }

  /** Applications are asked for when the `include` query parameter is
      present and is exactly "applications". */
  predicate IncludesApplications(includeParam: Option<string>) {
    includeParam == Some("applications")
  }

  /** The jobs of a company, in table order. */
  function CompanyJobs(t: Tables, companyId: Id): seq<Job> {
    Filter(t.jobs, (j: Job) => j.companyId == companyId)
  }

  /** The applications to a job, in table order. */
  function JobApplicationRows(t: Tables, jobId: Id): seq<Application> {
    Filter(t.applications, (a: Application) => a.jobId == jobId)
  }

  /** The application rows behind a list of views. */
  function ApplicationsOf(views: seq<ApplicationView>): seq<Application> {
    seq(|views|, i requires 0 <= i < |views| => views[i].application)
  }

  /** The job rows behind a list of views. */
  function JobsOf(views: seq<JobView>): seq<Job> {
    seq(|views|, i requires 0 <= i < |views| => views[i].job)
  }

  /** Both foreign keys of an application name existing rows. */
  predicate Resolvable(t: Tables, a: Application) {
    a.userId in UserIds(t) && a.cvId in CvIds(t)
  }

  /** The view shows the name and e-mail of the application's user. */
  predicate ShowsApplicant(t: Tables, v: ApplicationView) {
    exists u :: u in t.users && u.id == v.application.userId && v.user == UserBrief(u.name, u.email)
  }

  /** The view shows the file name and locator of the application's CV. */
  predicate ShowsCv(t: Tables, v: ApplicationView) {
    exists c :: c in t.cvs && c.id == v.application.cvId && v.cv == CvBrief(c.fileName, c.fileUrl)
  }

  /** One application with its applicant's name and e-mail and its CV's
      name and locator, looked up through the foreign keys. */
  function ViewOf(t: Tables, a: Application): (v: ApplicationView)
    requires Resolvable(t, a)
    ensures v.application == a && ShowsApplicant(t, v) && ShowsCv(t, v)
  {
    var u := FindUser(t, a.userId).value;
    var c := FindCv(t, a.cvId).value;
    ApplicationView(a, UserBrief(u.name, u.email), CvBrief(c.fileName, c.fileUrl))
  }

  function Views(t: Tables, apps: seq<Application>): (r: seq<ApplicationView>)
    requires forall i :: 0 <= i < |apps| ==> Resolvable(t, apps[i])
    ensures ApplicationsOf(r) == apps
    ensures forall i :: 0 <= i < |r| ==> ShowsApplicant(t, r[i]) && ShowsCv(t, r[i])
  {
    var r := seq(|apps|, i requires 0 <= i < |apps| => ViewOf(t, apps[i]));
    assert ApplicationsOf(r) == apps;
    r
  }

  /** Every application of a well-formed state can be resolved, in
      whatever order it is listed. */
  lemma RowsResolvable(t: Tables, jobId: Id, listed: seq<Application>)
    requires WellFormed(t) && multiset(listed) == multiset(JobApplicationRows(t, jobId))
    ensures forall i :: 0 <= i < |listed| ==> Resolvable(t, listed[i])
  {
    PermutationSameMembers(listed, JobApplicationRows(t, jobId));
    forall i | 0 <= i < |listed| ensures Resolvable(t, listed[i]) {
      assert listed[i] in JobApplicationRows(t, jobId);
      assert listed[i] in t.applications;
    }
  }

  /** The nested `applications` list of one job: exactly that job's
      applications, newest first, each with its applicant and CV cut down. */
  function JobApplications(t: Tables, jobId: Id): (r: seq<ApplicationView>)
    requires WellFormed(t)
    ensures SortedDesc(ApplicationsOf(r), ApplicationCreated)
    ensures multiset(ApplicationsOf(r)) == multiset(JobApplicationRows(t, jobId))
    ensures forall i :: 0 <= i < |r| ==> ShowsApplicant(t, r[i]) && ShowsCv(t, r[i])
  {
    var sorted := SortDesc(JobApplicationRows(t, jobId), ApplicationCreated);
    RowsResolvable(t, jobId, sorted);
    Views(t, sorted)
  }

  /** The listing for one company: exactly its jobs, newest first, each
      carrying its applications precisely when they were asked for. */
  function ListJobs(t: Tables, companyId: Id, withApplications: bool): (r: seq<JobView>)
    requires WellFormed(t)
    ensures SortedDesc(JobsOf(r), JobCreated)
    ensures multiset(JobsOf(r)) == multiset(CompanyJobs(t, companyId))
    ensures forall i :: 0 <= i < |r| ==> (r[i].applications.Some? <==> withApplications)
    ensures forall i :: 0 <= i < |r| && withApplications ==>
              r[i].applications == Some(JobApplications(t, r[i].job.id))
  {
    var jobs := SortDesc(CompanyJobs(t, companyId), JobCreated);
    var r := seq(|jobs|, i requires 0 <= i < |jobs| =>
               JobView(jobs[i], if withApplications then Some(JobApplications(t, jobs[i].id)) else None));
    assert JobsOf(r) == jobs;
    r
  }

  /** The `GET` handler: 401 without a session, 404 when the user belongs
      to no company, otherwise that company's listing. */
  function Get(t: Tables, session: Option<Principal>, includeParam: Option<string>): (r: Reply<seq<JobView>>)
    requires WellFormed(t)
    ensures session.None? ==> r == Fail(Unauthorized)
    ensures r.Ok? <==> session.Some? && CompanyOf(t, session.value.id).Some?
    ensures session.Some? ==>
              (r == Fail(NotFound) <==> forall c :: c in t.companies ==> session.value.id !in c.users)
    ensures r.Ok? ==> (session.Some? && CompanyOf(t, session.value.id).Some? &&
                       r.value == ListJobs(t, CompanyOf(t, session.value.id).value.id, IncludesApplications(includeParam)))
  {
    if session.None? then Fail(Unauthorized)
    else match CompanyOf(t, session.value.id)
      case None => Fail(NotFound)
      case Some(company) => Ok(ListJobs(t, company.id, IncludesApplications(includeParam)))
  }

  /** Each listed job carries its applications exactly when the `include`
      query parameter is "applications", and never otherwise. */
  lemma IncludeParamDecides(t: Tables, session: Option<Principal>, includeParam: Option<string>, i: nat)
    requires WellFormed(t)
    requires Get(t, session, includeParam).Ok? && i < |Get(t, session, includeParam).value|
    ensures Get(t, session, includeParam).value[i].applications.Some? <==> includeParam == Some("applications")
  {
  }

  /** Every job listed belongs to the user's own company. */
  lemma GetListsOnlyOwnCompanyJobs(t: Tables, session: Option<Principal>, includeParam: Option<string>, i: nat)
    requires WellFormed(t)
    requires Get(t, session, includeParam).Ok? && i < |Get(t, session, includeParam).value|
    ensures var c := CompanyOf(t, session.value.id).value;
            Get(t, session, includeParam).value[i].job in t.jobs &&
            Get(t, session, includeParam).value[i].job.companyId == c.id &&
            session.value.id in c.users
  {
    var c := CompanyOf(t, session.value.id).value;
    var views := Get(t, session, includeParam).value;
    PermutationSameMembers(JobsOf(views), CompanyJobs(t, c.id));
    assert JobsOf(views)[i] in JobsOf(views);
  }

  // ---------------------------------------------------------------- POST

  /** The `POST` guard chain: session (401), title, description and
      location all non-empty (400), then the user's company (404).  On
      success it yields the company the new job belongs to. */
  function PostGuard(t: Tables, session: Option<Principal>, title: Option<string>,
                     description: Option<string>, location: Option<string>): (r: Reply<Company>)
    ensures session.None? ==> r == Fail(Unauthorized)
    ensures session.Some? && !(Present(title) && Present(description) && Present(location)) ==>
              r == Fail(BadRequest)
    ensures session.Some? && Present(title) && Present(description) && Present(location) ==>
              r == match CompanyOf(t, session.value.id)
                   case None => Fail(NotFound)
                   case Some(c) => Ok(c)
  {
    if session.None? then Fail(Unauthorized)
    else if !Present(title) || !Present(description) || !Present(location) then Fail(BadRequest)
    else match CompanyOf(t, session.value.id)
      case None => Fail(NotFound)
      case Some(c) => Ok(c)
  }

  /** Missing fields are reported before the company is looked up: the
      400 does not depend on the tables at all. */
  lemma MissingFieldsBeforeCompany(t1: Tables, t2: Tables, p: Principal, title: Option<string>,
                                   description: Option<string>, location: Option<string>)
    requires !(Present(title) && Present(description) && Present(location))
    ensures PostGuard(t1, Some(p), title, description, location) == PostGuard(t2, Some(p), title, description, location)
  {
  }

  /** The `POST` handler.  `newId` and `now` are the id and `createdAt`
      the database assigns; the optional `requirements` and `salary` are
      stored as they came. */
  method Post(db: Store, session: Option<Principal>, title: Option<string>, description: Option<string>,
              requirements: Option<string>, location: Option<string>, salary: Option<string>,
              newId: Id, now: nat)
    returns (r: Reply<Job>)
    requires db.Valid()
    modifies db
    ensures db.Valid() && db.assets == old(db.assets)
    ensures var g := PostGuard(old(db.Snapshot()), session, title, description, location);
            g.Fail? ==> r == Fail(g.code)
    ensures var g := PostGuard(old(db.Snapshot()), session, title, description, location);
            g.Ok? ==> (r.Ok? <==> newId !in JobIds(old(db.Snapshot()))) && (r.Fail? ==> r.code == Internal)
    ensures r.Ok? ==>
              var c := PostGuard(old(db.Snapshot()), session, title, description, location);
              c.Ok? &&
              r.value == Job(newId, c.value.id, title.value, description.value, requirements,
                             location.value, salary, now)
    ensures r.Ok? ==> db.Snapshot() == old(db.Snapshot()).(jobs := old(db.jobs) + [r.value])
    ensures r.Fail? ==> db.Snapshot() == old(db.Snapshot())
  {
    var g := PostGuard(db.Snapshot(), session, title, description, location);
    if g.Fail? {
      return Fail(g.code);
    }
    var job := Job(newId, g.value.id, title.value, description.value, requirements, location.value, salary, now);
    ghost var t := db.Snapshot();
    assert g.value.id in CompanyIds(t) by {
      assert g.value in t.companies;
    }
    var ok := db.CreateJob(job);
    if ok {
      r := Ok(job);
    } else {
      r := Fail(Internal);
    }
  }

  /** A job just created is listed for every member of its company that
      is resolved to that company. */
  lemma CreatedJobIsListed(t: Tables, session: Option<Principal>, includeParam: Option<string>, job: Job)
    requires WellFormed(t) && CanInsertJob(t, job)
    requires session.Some? && CompanyOf(t, session.value.id).Some?
    requires job.companyId == CompanyOf(t, session.value.id).value.id
    ensures var t' := t.(jobs := t.jobs + [job]);
            WellFormed(t') && Get(t', session, includeParam).Ok? &&
            job in JobsOf(Get(t', session, includeParam).value)
  {
    var t' := t.(jobs := t.jobs + [job]);
    InsertJobWellFormed(t, job);
    assert t'.companies == t.companies;
    var views := Get(t', session, includeParam).value;
    assert job in CompanyJobs(t', job.companyId) by {
      assert t'.jobs[|t.jobs|] == job;
    }
    PermutationSameMembers(JobsOf(views), CompanyJobs(t', job.companyId));
  }
}
