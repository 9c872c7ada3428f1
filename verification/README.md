# Job board: CV and application workflow

A Dafny model of the server side of a Next.js job board. Job seekers
upload CVs and apply to jobs with them. Employers post jobs and review the
applications to their company's jobs.

The model covers six route handlers and two list updates on the employer
page:

- `POST /api/jobs/apply` submits a CV to a job.
- `POST /api/upload/cv` and `POST /api/cv/upload` are two CV upload
  handlers that validate different things.
- `GET` and `POST /api/employer/jobs` list and create a company's jobs.
- `GET /api/user/cvs` lists the signed-in user's CVs.
- On the employer profile page, the jobs list is filtered after a job is
  deleted, and mapped after an application's status changes.

Layout:

- `common.dfy` (`Common`): `Option`, the reply codes with their HTTP
  statuses, and JavaScript truthiness for a form or body string.
- `seqs.dfy` (`Seqs`): Prisma's `findFirst`, `where` and `orderBy desc`
  as `FindFirst`, `Filter` and `SortDesc`, and `String.includes` as
  `Contains`, each with its lemmas.
- `schema.dfy` (`Schema`): the tables and their rows, well-formedness
  (unique ids, foreign keys), and when an insert succeeds.
- `database.dfy` (`Database`): the `Store` class. It holds the tables in
  database order and the set of stored upload locators. Its `create`
  methods append one row.
- `cv_locator.dfy` (`CvLocator`): the `"{timestamp}-{name}"` stored name
  and its `/uploads/cvs/` locator.
- One module per route handler, plus `EmployerProfilePage`.

Each of the four `POST` handlers is a guard function followed by a
method. The guard function is pure and decides the error reply from a
snapshot of the tables. The method runs the guard, then performs the
writes on the `Store`. A failed Prisma `create` throws in the source and
becomes a 500 reply. In the model that is `Fail(Internal)`, and the tables
stay as they were. A `create` fails when the id is taken, when a foreign
key dangles, or when a required column is null.

The two `GET` handlers change nothing. Each is one pure function over a
snapshot of the tables, `UserCvsRoute.Get` and `EmployerJobsRoute.Get`,
that returns either the error reply or the listing.

Notes on the handlers' behaviour:

- A duplicate application gets 400.
- `POST /api/upload/cv` never compares the form's `userId` with the
  signed-in user.
- `POST /api/cv/upload` checks neither the file's type nor its size.
- The type test is a substring test on the MIME string. The legacy Word
  type `application/msword` mentions neither "pdf" nor "doc", so it is
  refused (`UploadCvRoute.LegacyWordTypeRefused`).
- Both uploads write the file before creating the record. When the
  `create` then fails, the file stays behind with no record pointing at
  it. `UploadCvRoute.Post` and `CvUploadRoute.Post` state this in their
  `assets` postconditions.
- The file is written to `path.join` of the upload directory and the
  stored name, which normalises the browser's file name. The model does
  not follow this step; see `Database.Store.WriteFile` under "Left out".

## Model

| member | source | states |
|---|---|---|
| Common.HttpStatus | src/app/api/jobs/apply/route.ts:11-13 | every error code maps to a 4xx or 5xx status |
| Common.StatusOf | src/app/api/jobs/apply/route.ts:68-75 | a reply has status 200 exactly when it succeeded |
| Common.Present | src/app/api/jobs/apply/route.ts:18 | the `!field` test: a field counts as given only when it is present and not the empty string; `ApplyRoute.AbsentOrEmptyFieldIsMissing` and the guards' contracts state its effect |
| Seqs.FindFirst | src/app/api/employer/jobs/route.ts:19-27 | `findFirst` gives the first row that matches, and none only when no row matches |
| Seqs.Filter | src/app/api/user/cvs/route.ts:14-17 | `where` keeps exactly the rows that satisfy the condition, and never more rows than the table has |
| Seqs.FilterKeepsOrder | src/app/employer/profile/page.tsx:85 | two kept rows stay in their original relative order |
| Seqs.FilterMultiset | src/app/api/user/cvs/route.ts:14-17 | each row appears in the filtered list as often as in the table if it matches, and not at all otherwise |
| Seqs.SortDesc | src/app/api/user/cvs/route.ts:24-26 | `orderBy: { createdAt: "desc" }` gives a permutation of its input with non-increasing keys |
| Seqs.ContainsAt | src/app/api/upload/cv/route.ts:32-36 | `includes` holds exactly when the substring occurs at some position |
| Seqs.ContainsPrefix | src/app/api/upload/cv/route.ts:34-35 | a string that contains a substring also contains each prefix of it |
| Schema.StatusNameRoundTrip | src/app/api/jobs/apply/route.ts:64 | the four application statuses and their names correspond one to one |
| Schema.FindJob | src/app/api/jobs/apply/route.ts:23-25 | `findUnique` by id finds the job with that id, or none when no job has it |
| Schema.InsertApplicationWellFormed | src/app/api/jobs/apply/route.ts:59-66 | an insert that succeeds keeps ids unique and foreign keys resolvable |
| Database.Store.CreateApplication | src/app/api/jobs/apply/route.ts:59-66 | succeeds exactly when the id is fresh and the job, user and CV exist; then it appends exactly that row, and otherwise nothing changes |
| Database.Store.CreateCv | src/app/api/upload/cv/route.ts:66-73 | succeeds exactly when the id is fresh and the owner exists; then it appends exactly that row, and otherwise nothing changes |
| Database.Store.CreateJob | src/app/api/employer/jobs/route.ts:102-111 | succeeds exactly when the id is fresh and the company exists; then it appends exactly that row, and otherwise nothing changes |
| Database.Store.WriteFile | src/app/api/upload/cv/route.ts:63 | a write that succeeds adds the locator to the stored files; the tables never change |
| CvLocator.Decimal | src/app/api/upload/cv/route.ts:58-59 | a timestamp is rendered as a non-empty string of digits with no leading zero |
| CvLocator.DecimalRoundTrip | src/app/api/upload/cv/route.ts:58-59 | reading the rendered timestamp back gives the timestamp |
| CvLocator.DecimalInjective | src/app/api/upload/cv/route.ts:58-59 | distinct timestamps render differently |
| CvLocator.StoredName | src/app/api/upload/cv/route.ts:59 | the stored name is decimal digits, a hyphen, then the browser's file name unchanged; `StoredNameRoundTrip` reads both parts back |
| CvLocator.FileUrl | src/app/api/upload/cv/route.ts:69 | the locator is the whole stored name under `/uploads/cvs/`, as both handlers build it (also src/app/api/cv/upload/route.ts:60) |
| CvLocator.StoredNameRoundTrip | src/app/api/upload/cv/route.ts:59 | the timestamp and the whole original name can be read back from the stored name |
| CvLocator.StoredNameCollision | src/app/api/cv/upload/route.ts:49-50 | two uploads get the same stored name if and only if both the timestamp and the original name are equal |
| CvLocator.FileUrlShape | src/app/api/upload/cv/route.ts:58-60 | the locator starts with `/uploads/cvs/` and ends with the browser's file name |
| ApplyRoute.FindApplicableCv | src/app/api/jobs/apply/route.ts:32-38 | finds a CV with the given id that the user owns and that is `ACTIVE`, and finds none exactly when no such CV exists |
| ApplyRoute.FindApplication | src/app/api/jobs/apply/route.ts:45-50 | finds an application of the user to the job, and finds none exactly when the user has not applied |
| ApplyRoute.ApplyGuard | src/app/api/jobs/apply/route.ts:11-56 | the first failing check decides the reply: no session 401, missing `jobId` or `cvId` 400, unknown job 404, no own active CV 404, earlier application 400 |
| ApplyRoute.AbsentOrEmptyFieldIsMissing | src/app/api/jobs/apply/route.ts:18-20 | a `jobId` or `cvId` that is absent or the empty string gets 400 |
| ApplyRoute.Post | src/app/api/jobs/apply/route.ts:7-77 | a guard failure is returned with nothing changed; otherwise the reply is OK exactly when the insert can succeed; the new row is `PENDING` with the session's user id and the body's job and CV; only the applications table grows, by that one row; a failure changes nothing |
| ApplyRoute.ApplyTwiceRejected | src/app/api/jobs/apply/route.ts:45-56 | after a submission is stored, the same submission gets 400 |
| ApplyRoute.SubmissionIsTheOnlyOne | src/app/api/jobs/apply/route.ts:45-66 | after a successful submission, the job and user have exactly one application, the new one |
| ApplyRoute.SubmissionKeepsPairsUnique | src/app/api/jobs/apply/route.ts:45-66 | if no job and user had two applications before a submission, none has two after it |
| ApplyRoute.SubmittedCvIsOwnAndActive | src/app/api/jobs/apply/route.ts:31-42 | a submission that passes the guards names the user's own active CV; another user's CV gets 404 |
| UploadCvRoute.AcceptedType | src/app/api/upload/cv/route.ts:32-36 | the type test holds exactly when "pdf" or "doc" occurs at some position of the MIME string |
| UploadCvRoute.DocxTestRedundant | src/app/api/upload/cv/route.ts:32-36 | the type test accepts exactly the MIME strings that mention "pdf" or "doc"; the "docx" test changes nothing |
| UploadCvRoute.LegacyWordTypeRefused | src/app/api/upload/cv/route.ts:32-41 | the MIME type `application/msword` fails the type test |
| UploadCvRoute.UploadGuard | src/app/api/upload/cv/route.ts:13-49 | no session 401, no file 400; with both, the upload goes ahead if and only if the type is accepted and the size is at most 5 MiB, and 400 otherwise |
| UploadCvRoute.SizeLimitBoundary | src/app/api/upload/cv/route.ts:43-49 | exactly 5 MiB is accepted and one byte more gets 400 |
| UploadCvRoute.GuardIgnoresWhoIsSignedIn | src/app/api/upload/cv/route.ts:20-22 | beyond the session check, the guard's reply does not depend on which user is signed in |
| UploadCvRoute.Post | src/app/api/upload/cv/route.ts:9-83 | a guard failure changes nothing; otherwise the file is written first and a failed `create` leaves it behind; OK exactly when the write succeeds and the form's `userId` names an existing user; the row keeps the browser's file name, the form's `userId` and `ACTIVE`, and its locator is among the stored files; a failure leaves the tables unchanged |
| CvUploadRoute.IdentityGuard | src/app/api/cv/upload/route.ts:12-43 | no session 401, no file 400, no `userId` 400, a `userId` other than the session's 403; going ahead means the form's `userId` is the signed-in user |
| CvUploadRoute.GuardIgnoresFileContent | src/app/api/cv/upload/route.ts:45-54 | the file's type, size and name never affect the reply |
| CvUploadRoute.Post | src/app/api/cv/upload/route.ts:8-77 | a guard failure changes nothing; otherwise the file is written first; OK exactly when the write succeeds and the user exists; the row's `fileName` is the timestamped name, its locator is that name under `/uploads/cvs/`, it is `ACTIVE` and owned by the checked user |
| UserCvsRoute.Get | src/app/api/user/cvs/route.ts:6-34 | 401 exactly when there is no session and OK exactly when there is one; the listing is newest first, a permutation of the summaries of the user's CVs whatever their status, listing each of the user's CVs and nothing else |
| UserCvsRoute.ListsOwnedCvs | src/app/api/user/cvs/route.ts:14-17 | however the summaries are ordered, they list each of the owner's CVs and only the owner's CVs |
| UserCvsRoute.NewCvListedAheadOfOlder | src/app/api/user/cvs/route.ts:14-26 | a CV just added is listed for its owner, ahead of all of the owner's older CVs |
| EmployerJobsRoute.CompanyOf | src/app/api/employer/jobs/route.ts:19-27 | the company is the first in table order whose members include the user; there is none exactly when no company has the user as a member |
| EmployerJobsRoute.IncludesApplications | src/app/api/employer/jobs/route.ts:16 | applications are asked for exactly when the `include` parameter is "applications"; `IncludeParamDecides` states the effect on the listing |
| EmployerJobsRoute.ViewOf | src/app/api/employer/jobs/route.ts:39-53 | an included application shows only its applicant's name and e-mail and its CV's file name and locator, taken from the rows its keys point to |
| EmployerJobsRoute.Views | src/app/api/employer/jobs/route.ts:39-53 | the views keep the order of the applications, and each shows its own applicant and CV |
| EmployerJobsRoute.RowsResolvable | src/app/api/employer/jobs/route.ts:39-53 | in well-formed tables, every application of a job has an existing applicant and CV |
| EmployerJobsRoute.JobApplications | src/app/api/employer/jobs/route.ts:39-57 | a job's applications are exactly its application rows, newest first, each with its applicant and CV |
| EmployerJobsRoute.ListJobs | src/app/api/employer/jobs/route.ts:33-63 | exactly the company's jobs, newest first; each carries its applications if and only if they were asked for |
| EmployerJobsRoute.Get | src/app/api/employer/jobs/route.ts:7-70 | no session 401; 404 exactly when the user belongs to no company; OK exactly when the user belongs to one, with the listing of the user's first company, with applications exactly when `include` is "applications" |
| EmployerJobsRoute.IncludeParamDecides | src/app/api/employer/jobs/route.ts:16 | every listed job carries its applications if and only if `include` is "applications" |
| EmployerJobsRoute.GetListsOnlyOwnCompanyJobs | src/app/api/employer/jobs/route.ts:33-36 | every listed job is a stored job of a company the user belongs to |
| EmployerJobsRoute.PostGuard | src/app/api/employer/jobs/route.ts:76-100 | no session 401; an empty or missing title, description or location 400; no company 404; otherwise the user's first company |
| EmployerJobsRoute.MissingFieldsBeforeCompany | src/app/api/employer/jobs/route.ts:83-96 | a missing field gets its reply before the company lookup, so the reply does not depend on the tables |
| EmployerJobsRoute.Post | src/app/api/employer/jobs/route.ts:72-118 | a guard failure changes nothing; otherwise OK exactly when the id is fresh; the new job has the body's fields and the resolved company; only the jobs table grows, by that one row |
| EmployerJobsRoute.CreatedJobIsListed | src/app/api/employer/jobs/route.ts:102-111 | a job just created for the user's company appears in the user's listing |
| EmployerProfilePage.WithoutJob | src/app/employer/profile/page.tsx:85 | after a delete, the list holds exactly the jobs with a different id |
| EmployerProfilePage.DeleteKeepsRelativeOrder | src/app/employer/profile/page.tsx:85 | the remaining jobs keep their relative order |
| EmployerProfilePage.DeleteAbsentJob | src/app/employer/profile/page.tsx:85 | deleting an id the list does not hold leaves the list as it is |
| EmployerProfilePage.AfterDelete | src/app/employer/profile/page.tsx:84-88 | the list is unchanged when the response is not OK; otherwise it is `WithoutJob` of the list, so it holds exactly the other jobs in their order |
| EmployerProfilePage.UpdateApplication | src/app/employer/profile/page.tsx:117-119 | a matching application takes the new status and keeps every other field; any other application is unchanged |
| EmployerProfilePage.UpdateJob | src/app/employer/profile/page.tsx:115-120 | a job keeps every field and its applications in order, each updated as `UpdateApplication` states |
| EmployerProfilePage.UpdateStatus | src/app/employer/profile/page.tsx:114-121 | the same jobs in the same order and the same applications in the same order; every application with the given id gets the new status; every other field and application is unchanged |
| EmployerProfilePage.UpdateStatusIdempotent | src/app/employer/profile/page.tsx:117-119 | setting the same status twice has the same effect as setting it once |
| EmployerProfilePage.UpdateAbsentApplication | src/app/employer/profile/page.tsx:117-119 | an id no listed application has leaves the list as it is |
| EmployerProfilePage.UpdateStatusAppend | src/app/employer/profile/page.tsx:115 | the status update works job by job |
| EmployerProfilePage.DeleteAndUpdateCommute | src/app/employer/profile/page.tsx:77-121 | deleting a job and changing a status give the same list in either order |
| EmployerProfilePage.AfterStatusUpdate | src/app/employer/profile/page.tsx:112-124 | the list is unchanged when the response is not OK; otherwise it is `UpdateStatus` of the list: the same jobs and applications, with only the matching applications' status changed |
| EmployerProfilePage.StatusOptionsAreTheStatuses | src/app/employer/profile/page.tsx:290-310 | the select offers four distinct values, and they are exactly the names of the four application statuses |

## Left out

- The endpoints the page calls whose handlers are not modelled: `PATCH /api/employer/applications/[id]`, `DELETE /api/employer/jobs/[id]` and `/api/employer/company`. The page's list updates take the server's answer as the `responseOk` parameter. Company-membership checks for status changes are therefore not modelled.
- Rendering and the rest of the page: the JSX, `fetch`, `window.confirm` (a declined confirm sends nothing and changes nothing), `alert`, loading flags and navigation. The other pages and components are not part of this model.
- NextAuth is reduced to an optional principal with an id. Prisma is reduced to the `Store`'s sequences. `fs` and `path` are reduced to a set of locators.
- `mkdir` and `existsSync` for the upload directory, and the file's bytes.
- A write the file system refuses is the `diskOk` parameter.
- Database.Store.WriteFile: records the locator string, not the file it names. The source writes to `path.join(uploadsDir, storedName)`, and `path.join` resolves `..` and `/` in the browser's file name. A name such as `/../../x.pdf` is written outside the CV directory, and two different stored names can name the same file, so a later upload can overwrite an earlier CV's file. The model keeps both locators in `assets`. `StoredNameCollision` is about the names, not the files on disk.
- `Date.now()` is the `timestamp` parameter. The `createdAt` and id the database assigns are the `now` and `newId` parameters.
- JSON and form-data parsing: each field is an optional string. A body that does not parse, or a field of another JSON type, is not modelled. An unparsable body throws and gets 500 in the source.
- Failures of database reads, which would also give 500.
- `console.error` and the localized message strings. Only the status code is modelled.
- Concurrency. Requests are handled one at a time. Two parallel submissions can both pass the duplicate check in the source, and the model does not show this.
- The job `status` column and its default.
- The order of rows with equal `createdAt`. `SortDesc` promises only a newest-first permutation, which is all `orderBy` promises.
