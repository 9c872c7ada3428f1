/** `POST /api/cv/upload`: the other CV upload handler.  It checks the
    session, the file's presence, the form's `userId` and that this id is
    the signed-in user's (403 otherwise), but it checks neither the MIME
    type nor the size.  The record's `fileName` is the timestamped stored
    name, not the browser's. */
module CvUploadRoute {
  import opened Common
  import opened Schema
  import opened Database
  import opened CvLocator

  /** The guard chain before any write: session (401), file (400),
      `userId` (400), `userId` is the signed-in user (403).  `None` means
      the upload goes ahead. */
  function IdentityGuard(session: Option<Principal>, file: Option<FormFile>, userId: Option<string>): (r: Option<Code>)
    ensures session.None? ==> r == Some(Unauthorized)
    ensures session.Some? && file.None? ==> r == Some(BadRequest)
    ensures session.Some? && file.Some? && !Present(userId) ==> r == Some(BadRequest)
    ensures session.Some? && file.Some? && Present(userId) ==>
              r == if session.value.id != userId.value then Some(Forbidden) else None
    ensures r.None? ==> session.Some? && file.Some? && userId == Some(session.value.id)
  {
    if session.None? then Some(Unauthorized)
    else if file.None? then Some(BadRequest)
    else if !Present(userId) then Some(BadRequest)
    else if session.value.id != userId.value then Some(Forbidden)
    else None
  }

  /** No content validation: what the file is, how large it is and what
      it is called never affect the guards. */
  lemma GuardIgnoresFileContent(session: Option<Principal>, f1: FormFile, f2: FormFile, userId: Option<string>)
    ensures IdentityGuard(session, Some(f1), userId) == IdentityGuard(session, Some(f2), userId)
  {
  }

  /** The handler.  `timestamp` is `Date.now()`, `diskOk` whether the file
      system accepts the write, `newId` and `now` the id and `createdAt`
      the database assigns. */
  method Post(db: Store, session: Option<Principal>, file: Option<FormFile>, userId: Option<string>,
              timestamp: nat, diskOk: bool, newId: Id, now: nat)
    returns (r: Reply<Cv>)
    requires db.Valid()
    modifies db
    ensures db.Valid()
    ensures IdentityGuard(session, file, userId).Some? ==>
              r == Fail(IdentityGuard(session, file, userId).value) &&
              db.Snapshot() == old(db.Snapshot()) && db.assets == old(db.assets)
    ensures IdentityGuard(session, file, userId).None? ==>
              db.assets == if diskOk then old(db.assets) + {FileUrl(StoredName(timestamp, file.value.name))}
                           else old(db.assets)
    ensures IdentityGuard(session, file, userId).None? && r.Fail? ==> r.code == Internal
    ensures r.Ok? <==> IdentityGuard(session, file, userId).None? && diskOk &&
                       newId !in CvIds(old(db.Snapshot())) && session.value.id in UserIds(old(db.Snapshot()))
    ensures r.Ok? ==> var name := StoredName(timestamp, file.value.name);
                      r.value == Cv(newId, session.value.id, name, FileUrl(name), Active, now)
    ensures r.Ok? ==> db.Snapshot() == old(db.Snapshot()).(cvs := old(db.cvs) + [r.value])
    ensures r.Ok? ==> r.value.fileUrl in db.assets
    ensures r.Fail? ==> db.Snapshot() == old(db.Snapshot())
  {
    var g := IdentityGuard(session, file, userId);
    if g.Some? {
      return Fail(g.value);
    }
    var fileName := StoredName(timestamp, file.value.name);
    var fileUrl := FileUrl(fileName);
    var written := db.WriteFile(fileUrl, diskOk);
    if !written {
      return Fail(Internal);
    }
    var cv := Cv(newId, userId.value, fileName, fileUrl, Active, now);
    var ok := db.CreateCv(cv);
    if ok {
      r := Ok(cv);
    } else {
      r := Fail(Internal);
    }
  }
}
