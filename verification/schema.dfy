/** The database tables the route handlers read and write: users,
    companies with their member users, jobs, CVs and job applications,
    with the integrity the database keeps (unique ids, foreign keys). */
module Schema {
  import opened Common
  import opened Seqs

  type Id = string

  /** The signed-in principal the session provider hands to a handler. */
  datatype Principal = Principal(id: Id)

  datatype User = User(id: Id, name: string, email: string)

  /** `users` is the company's member relation, in database order. */
  datatype Company = Company(id: Id, name: string, location: string, users: seq<Id>)

  datatype Job = Job(
    id: Id, companyId: Id, title: string, description: string,
    requirements: Option<string>, location: string, salary: Option<string>,
    createdAt: nat)

  datatype CvStatus = Active | Inactive

  datatype Cv = Cv(id: Id, userId: Id, fileName: string, fileUrl: string, status: CvStatus, createdAt: nat)

  datatype ApplicationStatus = Pending | Reviewing | Accepted | Rejected

  datatype Application = Application(
    id: Id, jobId: Id, userId: Id, cvId: Id, status: ApplicationStatus, createdAt: nat)

  datatype Tables = Tables(
    users: seq<User>, companies: seq<Company>, jobs: seq<Job>,
    cvs: seq<Cv>, applications: seq<Application>)

  // ---------------------------------------------------------------- status names

  /** The spelling of an application status in the database and in JSON. */
  function StatusName(s: ApplicationStatus): string {
    match s
    case Pending => "PENDING"
    case Reviewing => "REVIEWING"
    case Accepted => "ACCEPTED"
    case Rejected => "REJECTED"
  }

  function ParseStatus(s: string): Option<ApplicationStatus> {
    if s == "PENDING" then Some(Pending)
    else if s == "REVIEWING" then Some(Reviewing)
    else if s == "ACCEPTED" then Some(Accepted)
    else if s == "REJECTED" then Some(Rejected)
    else None
  }

  lemma StatusNameRoundTrip(s: ApplicationStatus, name: string)
    ensures ParseStatus(StatusName(s)) == Some(s)
    ensures ParseStatus(name) == Some(s) ==> StatusName(s) == name
  {
  }

  // ---------------------------------------------------------------- keys

  function UserIds(t: Tables): set<Id> { set u | u in t.users :: u.id }
  function CompanyIds(t: Tables): set<Id> { set c | c in t.companies :: c.id }
  function JobIds(t: Tables): set<Id> { set j | j in t.jobs :: j.id }
  function CvIds(t: Tables): set<Id> { set c | c in t.cvs :: c.id }
  function ApplicationIds(t: Tables): set<Id> { set a | a in t.applications :: a.id }

  predicate UniqueIds<T>(s: seq<T>, id: T -> Id) {
    forall i, j :: 0 <= i < j < |s| ==> id(s[i]) != id(s[j])
  }

  /** What the database guarantees of every state: primary keys are
      unique and every foreign key names an existing row. */
  predicate WellFormed(t: Tables) {
    && UniqueIds(t.users, (u: User) => u.id)
    && UniqueIds(t.companies, (c: Company) => c.id)
    && UniqueIds(t.jobs, (j: Job) => j.id)
    && UniqueIds(t.cvs, (c: Cv) => c.id)
    && UniqueIds(t.applications, (a: Application) => a.id)
    && (forall c, u :: c in t.companies && u in c.users ==> u in UserIds(t))
    && (forall j :: j in t.jobs ==> j.companyId in CompanyIds(t))
    && (forall c :: c in t.cvs ==> c.userId in UserIds(t))
    && (forall a :: a in t.applications ==>
          a.jobId in JobIds(t) && a.userId in UserIds(t) && a.cvId in CvIds(t))
  }

  // ---------------------------------------------------------------- lookups

  /** The row of the users table with the given id, looked up by its unique key. */
  function FindUser(t: Tables, id: Id): (r: Option<User>)
    ensures r.Some? ==> r.value in t.users && r.value.id == id
    ensures r.None? <==> id !in UserIds(t)
  {
    match FindFirst(t.users, (u: User) => u.id == id)
    case None => None
    case Some(k) => Some(t.users[k])
  }

  /** The row of the jobs table with the given id, looked up by its unique key. */
  function FindJob(t: Tables, id: Id): (r: Option<Job>)
    ensures r.Some? ==> r.value in t.jobs && r.value.id == id
    ensures r.None? <==> id !in JobIds(t)
  {
    match FindFirst(t.jobs, (j: Job) => j.id == id)
    case None => None
    case Some(k) => Some(t.jobs[k])
  }

  /** The row of the CV table with the given id, looked up by its unique key. */
  function FindCv(t: Tables, id: Id): (r: Option<Cv>)
    ensures r.Some? ==> r.value in t.cvs && r.value.id == id
    ensures r.None? <==> id !in CvIds(t)
  {
    match FindFirst(t.cvs, (c: Cv) => c.id == id)
    case None => None
    case Some(k) => Some(t.cvs[k])
  }

  // ---------------------------------------------------------------- inserts

  /** A `create` succeeds when the new id is free and every foreign key
      it carries exists; otherwise the database throws. */
  predicate CanInsertApplication(t: Tables, a: Application) {
    a.id !in ApplicationIds(t) && a.jobId in JobIds(t) && a.userId in UserIds(t) && a.cvId in CvIds(t)
  }

  predicate CanInsertCv(t: Tables, c: Cv) {
    c.id !in CvIds(t) && c.userId in UserIds(t)
  }

  predicate CanInsertJob(t: Tables, j: Job) {
    j.id !in JobIds(t) && j.companyId in CompanyIds(t)
  }

  lemma UniqueIdsAppend<T>(s: seq<T>, x: T, id: T -> Id)
    requires UniqueIds(s, id)
    requires forall k :: 0 <= k < |s| ==> id(s[k]) != id(x)
    ensures UniqueIds(s + [x], id)
  {
    var r := s + [x];
    forall i, j | 0 <= i < j < |r| ensures id(r[i]) != id(r[j]) {
      if j == |s| {
        assert r[i] == s[i];
      } else {
        assert r[i] == s[i] && r[j] == s[j];
      }
    }
  }

  lemma InsertApplicationWellFormed(t: Tables, a: Application)
    requires WellFormed(t) && CanInsertApplication(t, a)
    ensures WellFormed(t.(applications := t.applications + [a]))
  {
    forall k | 0 <= k < |t.applications| ensures t.applications[k].id != a.id {
      assert t.applications[k] in t.applications;
    }
    UniqueIdsAppend(t.applications, a, (x: Application) => x.id);
  }

  lemma InsertCvWellFormed(t: Tables, c: Cv)
    requires WellFormed(t) && CanInsertCv(t, c)
    ensures WellFormed(t.(cvs := t.cvs + [c]))
  {
    forall k | 0 <= k < |t.cvs| ensures t.cvs[k].id != c.id {
      assert t.cvs[k] in t.cvs;
    }
    UniqueIdsAppend(t.cvs, c, (x: Cv) => x.id);
    var t' := t.(cvs := t.cvs + [c]);
    assert CvIds(t) <= CvIds(t');
    assert UserIds(t') == UserIds(t) && JobIds(t') == JobIds(t);
  }

  lemma InsertJobWellFormed(t: Tables, j: Job)
    requires WellFormed(t) && CanInsertJob(t, j)
    ensures WellFormed(t.(jobs := t.jobs + [j]))
  {
    forall k | 0 <= k < |t.jobs| ensures t.jobs[k].id != j.id {
      assert t.jobs[k] in t.jobs;
    }
    UniqueIdsAppend(t.jobs, j, (x: Job) => x.id);
    var t' := t.(jobs := t.jobs + [j]);
    assert JobIds(t) <= JobIds(t');
    assert UserIds(t') == UserIds(t) && CompanyIds(t') == CompanyIds(t);
  }
}
