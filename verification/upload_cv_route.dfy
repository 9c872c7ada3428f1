/** `POST /api/upload/cv`: stores a CV file and registers it.  The handler
    checks the session, the file's presence, its MIME type and its size;
    it never compares the form's `userId` with the signed-in user.  The
    file is written before the record is created, and the record keeps
    the browser's original file name. */
module UploadCvRoute {
  import opened Common
  import opened Seqs
  import opened Schema
  import opened Database
  import opened CvLocator

  /** 5 MiB, the largest accepted file. */
  const MaxCvBytes: nat := 5 * 1024 * 1024

  /** The type test as the handler writes it: the MIME string mentions
      "pdf", "doc" or "docx".  It holds exactly when "pdf" or "doc"
      occurs at some position of the string. */
  predicate AcceptedType(mimeType: string): (b: bool)
    ensures b <==> (exists i :: OccursAt(mimeType, "pdf", i)) || (exists i :: OccursAt(mimeType, "doc", i))
  {
    ContainsAt(mimeType, "pdf");
    ContainsAt(mimeType, "doc");
    DocxMentionsDoc(mimeType);
    Contains(mimeType, "pdf") || Contains(mimeType, "doc") || Contains(mimeType, "docx")
  }

  lemma DocxMentionsDoc(mimeType: string)
    ensures Contains(mimeType, "docx") ==> Contains(mimeType, "doc")
  {
    if Contains(mimeType, "docx") {
      ContainsPrefix(mimeType, "docx", "doc");
    }
  }

  /** The registered type of a legacy Word document mentions neither "pdf"
      nor "doc", so such a file is refused. */
  lemma LegacyWordTypeRefused()
    ensures !AcceptedType("application/msword")
  {
    var m := "application/msword";
    forall i ensures !OccursAt(m, "pdf", i) && !OccursAt(m, "doc", i) {
      if 0 <= i && i + 3 <= |m| {
        assert m[i..i + 3][0] == m[i] && m[i..i + 3][1] == m[i + 1];
      }
    }
  }

  /** The "docx" test never changes the outcome: any type mentioning
      "docx" already mentions "doc". */
  lemma DocxTestRedundant(mimeType: string)
    ensures AcceptedType(mimeType) <==> Contains(mimeType, "pdf") || Contains(mimeType, "doc")
  {
    if Contains(mimeType, "docx") {
      ContainsPrefix(mimeType, "docx", "doc");
    }
  }

  /** The guard chain before any write: session (401), file (400), type
      (400), size (400).  `None` means the upload goes ahead. */
  function UploadGuard(session: Option<Principal>, file: Option<FormFile>): (r: Option<Code>)
    ensures session.None? ==> r == Some(Unauthorized)
    ensures session.Some? && file.None? ==> r == Some(BadRequest)
    ensures session.Some? && file.Some? ==>
              (r.None? <==> AcceptedType(file.value.mimeType) && file.value.size <= MaxCvBytes)
    ensures session.Some? && r.Some? ==> r == Some(BadRequest)
  {
    if session.None? then Some(Unauthorized)
    else if file.None? then Some(BadRequest)
    else if !AcceptedType(file.value.mimeType) then Some(BadRequest)
    else if file.value.size > MaxCvBytes then Some(BadRequest)
    else None
  }

  /** Exactly 5 MiB is accepted; one byte more is refused. */
  lemma SizeLimitBoundary(session: Principal, name: string, mimeType: string)
    requires AcceptedType(mimeType)
    ensures UploadGuard(Some(session), Some(FormFile(name, mimeType, 5 * 1024 * 1024))) == None
    ensures UploadGuard(Some(session), Some(FormFile(name, mimeType, 5 * 1024 * 1024 + 1))) == Some(BadRequest)
  {
  }

  /** Which user is signed in never matters past the session check: the
      form's `userId` is trusted as it is. */
  lemma GuardIgnoresWhoIsSignedIn(p1: Principal, p2: Principal, file: Option<FormFile>)
    ensures UploadGuard(Some(p1), file) == UploadGuard(Some(p2), file)
  {
  }

  /** The handler.  `timestamp` is `Date.now()`, `diskOk` whether the file
      system accepts the write, `newId` and `now` the id and `createdAt`
      the database assigns.  A missing `userId` reaches the database as
      null, and the create then throws. */
  method Post(db: Store, session: Option<Principal>, file: Option<FormFile>, userId: Option<string>,
              timestamp: nat, diskOk: bool, newId: Id, now: nat)
    returns (r: Reply<Cv>)
    requires db.Valid()
    modifies db
    ensures db.Valid()
    ensures UploadGuard(session, file).Some? ==>
              r == Fail(UploadGuard(session, file).value) &&
              db.Snapshot() == old(db.Snapshot()) && db.assets == old(db.assets)
    ensures UploadGuard(session, file).None? ==>
              db.assets == if diskOk then old(db.assets) + {FileUrl(StoredName(timestamp, file.value.name))}
                           else old(db.assets)
    ensures UploadGuard(session, file).None? && r.Fail? ==> r.code == Internal
    ensures r.Ok? <==> UploadGuard(session, file).None? && diskOk && userId.Some? &&
                       newId !in CvIds(old(db.Snapshot())) && userId.value in UserIds(old(db.Snapshot()))
    ensures r.Ok? ==> r.value == Cv(newId, userId.value, file.value.name,
                                    FileUrl(StoredName(timestamp, file.value.name)), Active, now)
    ensures r.Ok? ==> db.Snapshot() == old(db.Snapshot()).(cvs := old(db.cvs) + [r.value])
    ensures r.Ok? ==> r.value.fileUrl in db.assets
    ensures r.Fail? ==> db.Snapshot() == old(db.Snapshot())
  {
    var g := UploadGuard(session, file);
    if g.Some? {
      return Fail(g.value);
    }
    var storedName := StoredName(timestamp, file.value.name);
    var fileUrl := FileUrl(storedName);
    var written := db.WriteFile(fileUrl, diskOk);
    if !written {
      return Fail(Internal);
    }
    if userId.None? {
      return Fail(Internal);
    }
    var cv := Cv(newId, userId.value, file.value.name, fileUrl, Active, now);
    var ok := db.CreateCv(cv);
    if ok {
      r := Ok(cv);
    } else {
      r := Fail(Internal);
    }
  }
}
