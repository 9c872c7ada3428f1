/** The employer profile page's local jobs list and the two updates it
    makes to it: after a job is deleted (`handleDeleteJob`) and after an
    application's status is changed (`handleUpdateApplicationStatus`).
    Each update replaces the whole list, and only when the server
    answered OK. */
module EmployerProfilePage {
  import opened Common
  import opened Seqs
  import opened Schema
  import EmployerJobsRoute

  /** The page's `JobApplication` interface: the JSON of one listed
      application, its status kept as a plain string. */
  datatype PageApplication = PageApplication(
    id: string, jobId: string, userId: string, cvId: string, status: string, createdAt: string,
    user: EmployerJobsRoute.UserBrief, cv: EmployerJobsRoute.CvBrief)

  /** The page's `Job` interface. */
  datatype PageJob = PageJob(
    id: string, title: string, description: string, location: string, salary: string,
    status: string, createdAt: string, applications: seq<PageApplication>)

  // ---------------------------------------------------------------- delete

  /** The list after a delete: the jobs whose id differs from the deleted
      one, in their order. */
  function WithoutJob(jobs: seq<PageJob>, jobId: string): (r: seq<PageJob>)
    ensures forall k :: 0 <= k < |r| ==> r[k] in jobs && r[k].id != jobId
    ensures forall k :: 0 <= k < |jobs| && jobs[k].id != jobId ==> jobs[k] in r
  {
    Filter(jobs, (j: PageJob) => j.id != jobId)
  }

  /** Two jobs that stay keep their relative order. */
  lemma DeleteKeepsRelativeOrder(jobs: seq<PageJob>, jobId: string, i: nat, j: nat)
    requires i < j < |jobs| && jobs[i].id != jobId && jobs[j].id != jobId
    ensures exists p, q :: 0 <= p < q < |WithoutJob(jobs, jobId)| &&
              WithoutJob(jobs, jobId)[p] == jobs[i] && WithoutJob(jobs, jobId)[q] == jobs[j]
  {
    var keep := (x: PageJob) => x.id != jobId;
    FilterPosition(jobs, keep, i);
    FilterPosition(jobs, keep, j);
    FilterKeepsOrder(jobs, keep, i, j);
    var p, q := |Filter(jobs[..i], keep)|, |Filter(jobs[..j], keep)|;
    assert WithoutJob(jobs, jobId)[p] == jobs[i] && WithoutJob(jobs, jobId)[q] == jobs[j];
  }

  /** Deleting a job the list does not hold leaves the list as it is. */
  lemma DeleteAbsentJob(jobs: seq<PageJob>, jobId: string)
    requires forall k :: 0 <= k < |jobs| ==> jobs[k].id != jobId
    ensures WithoutJob(jobs, jobId) == jobs
  {
    FilterKeepsAll(jobs, (x: PageJob) => x.id != jobId);
  }

  /** The list after `handleDeleteJob`: filtered when the server answered
      OK, untouched when it did not (or the request threw). */
  function AfterDelete(jobs: seq<PageJob>, jobId: string, responseOk: bool): (r: seq<PageJob>)
    ensures !responseOk ==> r == jobs
    ensures responseOk ==> r == WithoutJob(jobs, jobId)
    ensures responseOk ==> forall k :: 0 <= k < |r| ==> r[k] in jobs && r[k].id != jobId
    ensures responseOk ==> forall k :: 0 <= k < |jobs| && jobs[k].id != jobId ==> jobs[k] in r
  {
    if responseOk then WithoutJob(jobs, jobId) else jobs
  }

  // ---------------------------------------------------------------- status

  /** One application after a status change: the matching application
      takes the new status and keeps every other field; any other
      application is left as it is. */
  function UpdateApplication(a: PageApplication, applicationId: string, newStatus: string): (r: PageApplication)
    ensures r.(status := a.status) == a
    ensures a.id == applicationId ==> r.status == newStatus
    ensures a.id != applicationId ==> r == a
  {
    if a.id == applicationId then a.(status := newStatus) else a
  }

  /** One job after a status change: the same job with the same
      applications in the same order, each updated on its own. */
  function UpdateJob(j: PageJob, applicationId: string, newStatus: string): (r: PageJob)
    ensures r.(applications := j.applications) == j && |r.applications| == |j.applications|
    ensures forall k :: 0 <= k < |j.applications| ==>
              r.applications[k].(status := j.applications[k].status) == j.applications[k] &&
              (j.applications[k].id == applicationId ==> r.applications[k].status == newStatus) &&
              (j.applications[k].id != applicationId ==> r.applications[k] == j.applications[k])
  {
    j.(applications := seq(|j.applications|, k requires 0 <= k < |j.applications| =>
                             UpdateApplication(j.applications[k], applicationId, newStatus)))
  }

  /** The list after a status change: every application with the given id gets the new
      status; nothing else changes, not the number or order of jobs, not
      the number or order of applications, not any other field. */
  function UpdateStatus(jobs: seq<PageJob>, applicationId: string, newStatus: string): (r: seq<PageJob>)
    ensures |r| == |jobs|
    ensures forall i :: 0 <= i < |jobs| ==>
              r[i].(applications := jobs[i].applications) == jobs[i] &&
              |r[i].applications| == |jobs[i].applications|
    ensures forall i, k :: 0 <= i < |jobs| && 0 <= k < |jobs[i].applications| ==>
              r[i].applications[k].(status := jobs[i].applications[k].status) == jobs[i].applications[k]
    ensures forall i, k :: 0 <= i < |jobs| && 0 <= k < |jobs[i].applications| ==>
              if jobs[i].applications[k].id == applicationId
              then r[i].applications[k].status == newStatus
              else r[i].applications[k] == jobs[i].applications[k]
  {
    seq(|jobs|, i requires 0 <= i < |jobs| => UpdateJob(jobs[i], applicationId, newStatus))
  }

  /** Setting the same status twice is the same as setting it once. */
  lemma UpdateStatusIdempotent(jobs: seq<PageJob>, applicationId: string, newStatus: string)
    ensures UpdateStatus(UpdateStatus(jobs, applicationId, newStatus), applicationId, newStatus)
         == UpdateStatus(jobs, applicationId, newStatus)
  {
    var once := UpdateStatus(jobs, applicationId, newStatus);
    var twice := UpdateStatus(once, applicationId, newStatus);
    forall i | 0 <= i < |jobs| ensures twice[i] == once[i] {
      assert twice[i].applications == once[i].applications;
    }
  }

  /** An id that no listed application has changes nothing. */
  lemma UpdateAbsentApplication(jobs: seq<PageJob>, applicationId: string, newStatus: string)
    requires forall i, k :: 0 <= i < |jobs| && 0 <= k < |jobs[i].applications| ==>
               jobs[i].applications[k].id != applicationId
    ensures UpdateStatus(jobs, applicationId, newStatus) == jobs
  {
    var r := UpdateStatus(jobs, applicationId, newStatus);
    forall i | 0 <= i < |jobs| ensures r[i] == jobs[i] {
      assert r[i].applications == jobs[i].applications;
    }
  }

  /** Deleting a job and changing a status commute: the two updates touch
      disjoint parts of the list. */
  lemma {:induction false} DeleteAndUpdateCommute(jobs: seq<PageJob>, jobId: string, applicationId: string, newStatus: string)
    ensures WithoutJob(UpdateStatus(jobs, applicationId, newStatus), jobId)
         == UpdateStatus(WithoutJob(jobs, jobId), applicationId, newStatus)
  {
    if jobs != [] {
      var first := UpdateJob(jobs[0], applicationId, newStatus);
      var head := if jobs[0].id != jobId then [jobs[0]] else [];
      var rest := WithoutJob(jobs[1..], jobId);
      var updated := UpdateStatus(jobs, applicationId, newStatus);
      UpdateStatusCons(jobs, applicationId, newStatus);
      assert updated[0] == first && updated[1..] == UpdateStatus(jobs[1..], applicationId, newStatus);
      assert WithoutJob(updated, jobId)
          == (if first.id != jobId then [first] else []) + WithoutJob(updated[1..], jobId);
      DeleteAndUpdateCommute(jobs[1..], jobId, applicationId, newStatus);
      assert WithoutJob(jobs, jobId) == head + rest;
      UpdateStatusAppend(head, rest, applicationId, newStatus);
      assert UpdateStatus(head, applicationId, newStatus) == if jobs[0].id != jobId then [first] else [];
    }
  }

  /** The status update works job by job. */
  lemma UpdateStatusAppend(a: seq<PageJob>, b: seq<PageJob>, applicationId: string, newStatus: string)
    ensures UpdateStatus(a + b, applicationId, newStatus)
         == UpdateStatus(a, applicationId, newStatus) + UpdateStatus(b, applicationId, newStatus)
  {
    var l := UpdateStatus(a + b, applicationId, newStatus);
    var r := UpdateStatus(a, applicationId, newStatus) + UpdateStatus(b, applicationId, newStatus);
    forall i | 0 <= i < |l| ensures l[i] == r[i] {
      if i < |a| {
        assert (a + b)[i] == a[i];
      } else {
        assert (a + b)[i] == b[i - |a|];
      }
    }
  }

  /** The first job of the updated list is the first job, updated. */
  lemma UpdateStatusCons(jobs: seq<PageJob>, applicationId: string, newStatus: string)
    requires jobs != []
    ensures UpdateStatus(jobs, applicationId, newStatus)
         == [UpdateJob(jobs[0], applicationId, newStatus)] + UpdateStatus(jobs[1..], applicationId, newStatus)
  {
    assert jobs == [jobs[0]] + jobs[1..];
    UpdateStatusAppend([jobs[0]], jobs[1..], applicationId, newStatus);
  }

  /** The list after `handleUpdateApplicationStatus`: updated when the
      server answered OK, untouched when it did not (or the request threw). */
  function AfterStatusUpdate(jobs: seq<PageJob>, applicationId: string, newStatus: string, responseOk: bool): (r: seq<PageJob>)
    ensures !responseOk ==> r == jobs
    ensures responseOk ==> r == UpdateStatus(jobs, applicationId, newStatus)
    ensures |r| == |jobs|
    ensures forall i :: 0 <= i < |jobs| ==>
              r[i].id == jobs[i].id && |r[i].applications| == |jobs[i].applications|
    ensures responseOk ==>
              forall i, k :: (0 <= i < |jobs| && 0 <= k < |jobs[i].applications| &&
                              jobs[i].applications[k].id == applicationId) ==>
                r[i].applications[k].status == newStatus
  {
    if responseOk then UpdateStatus(jobs, applicationId, newStatus) else jobs
  }

  // ---------------------------------------------------------------- the status select

  /** The values of the status `<select>`, in the order it offers them. */
  const StatusOptions: seq<string> := ["PENDING", "REVIEWING", "ACCEPTED", "REJECTED"]

  /** The select offers exactly the four application statuses, each once. */
  lemma StatusOptionsAreTheStatuses()
    ensures |StatusOptions| == 4
    ensures forall i, j :: 0 <= i < j < |StatusOptions| ==> StatusOptions[i] != StatusOptions[j]
    ensures forall s :: s in StatusOptions <==> ParseStatus(s).Some?
    ensures forall st :: StatusName(st) in StatusOptions
  {
  }
}
