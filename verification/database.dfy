/** The persistent state behind the route handlers: the database tables
    and the set of files written under the public uploads directory.
    Each table is a sequence in database order; `create` appends a row. */
module Database {
  import opened Common
  import opened Schema

  class Store {
    var users: seq<User>
    var companies: seq<Company>
    var jobs: seq<Job>
    var cvs: seq<Cv>
    var applications: seq<Application>
    /** Locators of the files written so far, `/uploads/cvs/<name>`. */
    var assets: set<string>

    /** The tables as one value, for the pure queries and guards. */
    function Snapshot(): Tables
      reads this
    {
      Tables(users, companies, jobs, cvs, applications)
    }

    predicate Valid()
      reads this
    {
      WellFormed(Snapshot())
    }

    constructor (initial: Tables, files: set<string>)
      requires WellFormed(initial)
      ensures Valid() && Snapshot() == initial && assets == files
    {
      users, companies, jobs := initial.users, initial.companies, initial.jobs;
      cvs, applications := initial.cvs, initial.applications;
      assets := files;
    }

    /** `prisma.jobApplication.create`: appends the row, or throws (and
        changes nothing) when its id is taken or a foreign key dangles. */
    method CreateApplication(a: Application) returns (ok: bool)
      requires Valid()
      modifies this
      ensures Valid()
      ensures ok == CanInsertApplication(old(Snapshot()), a)
      ensures Snapshot() == if ok then old(Snapshot()).(applications := old(applications) + [a])
                            else old(Snapshot())
      ensures assets == old(assets)
    {
      ok := CanInsertApplication(Snapshot(), a);
      if ok {
        InsertApplicationWellFormed(Snapshot(), a);
        applications := applications + [a];
      }
    }

    /** Prisma's CV `create`: appends the row, or throws (and changes
        nothing) when its id is taken or its owner does not exist. */
    method CreateCv(c: Cv) returns (ok: bool)
      requires Valid()
      modifies this
      ensures Valid()
      ensures ok == CanInsertCv(old(Snapshot()), c)
      ensures Snapshot() == if ok then old(Snapshot()).(cvs := old(cvs) + [c]) else old(Snapshot())
      ensures assets == old(assets)
    {
      ok := CanInsertCv(Snapshot(), c);
      if ok {
        InsertCvWellFormed(Snapshot(), c);
        cvs := cvs + [c];
      }
    }

    /** Prisma's job `create`: appends the row, or throws (and changes
        nothing) when its id is taken or its company does not exist. */
    method CreateJob(j: Job) returns (ok: bool)
      requires Valid()
      modifies this
      ensures Valid()
      ensures ok == CanInsertJob(old(Snapshot()), j)
      ensures Snapshot() == if ok then old(Snapshot()).(jobs := old(jobs) + [j]) else old(Snapshot())
      ensures assets == old(assets)
    {
      ok := CanInsertJob(Snapshot(), j);
      if ok {
        InsertJobWellFormed(Snapshot(), j);
        jobs := jobs + [j];
      }
    }

    /** `writeFile`: stores (or overwrites) the file behind a locator.
        Whether the file system accepts the write is outside the model;
        `diskOk` says so, and a refused write throws and stores nothing. */
    method WriteFile(locator: string, diskOk: bool) returns (ok: bool)
      requires Valid()
      modifies this
      ensures Valid()
      ensures ok == diskOk
      ensures assets == if ok then old(assets) + {locator} else old(assets)
      ensures Snapshot() == old(Snapshot())
    {
      ok := diskOk;
      if ok {
        assets := assets + {locator};
      }
    }
  }
}
