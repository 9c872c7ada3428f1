/** `GET /api/user/cvs`: the signed-in user's CVs, newest first, each
    cut down to id, file name, locator and creation time.  Inactive CVs
    are listed too: the query filters on the owner only. */
module UserCvsRoute {
  import opened Common
  import opened Seqs
  import opened Schema

  /** The four fields the query selects. */
  datatype CvSummary = CvSummary(id: Id, fileName: string, fileUrl: string, createdAt: nat)

  function Summary(c: Cv): CvSummary {
    CvSummary(c.id, c.fileName, c.fileUrl, c.createdAt)
  }

  function SummaryCreated(s: CvSummary): int {
    s.createdAt
  }

  /** The CVs whose owner is `userId`, in table order. */
  function OwnedCvs(t: Tables, userId: Id): seq<Cv> {
    Filter(t.cvs, (c: Cv) => c.userId == userId)
  }

  function Summaries(cvs: seq<Cv>): seq<CvSummary> {
    seq(|cvs|, i requires 0 <= i < |cvs| => Summary(cvs[i]))
  }

  /** The handler: 401 without a session; otherwise exactly the summaries
      of the user's CVs, whatever their status, newest first. */
  function Get(t: Tables, session: Option<Principal>): (r: Reply<seq<CvSummary>>)
    ensures session.None? <==> r == Fail(Unauthorized)
    ensures r.Ok? <==> session.Some?
    ensures r.Ok? ==> SortedDesc(r.value, SummaryCreated)
    ensures r.Ok? ==> multiset(r.value) == multiset(Summaries(OwnedCvs(t, session.value.id)))
    ensures r.Ok? ==> forall c :: c in t.cvs && c.userId == session.value.id ==> Summary(c) in r.value
    ensures r.Ok? ==> forall s :: s in r.value ==>
                        exists c :: c in t.cvs && c.userId == session.value.id && Summary(c) == s
  {
    if session.None? then Fail(Unauthorized)
    else
      var owned := OwnedCvs(t, session.value.id);
      var listed := SortDesc(Summaries(owned), SummaryCreated);
      ListsOwnedCvs(t, session.value.id, listed);
      Ok(listed)
  }

  /** Any reordering of the owner's summaries lists each of the owner's
      CVs and nothing else. */
  lemma ListsOwnedCvs(t: Tables, userId: Id, listed: seq<CvSummary>)
    requires multiset(listed) == multiset(Summaries(OwnedCvs(t, userId)))
    ensures forall c :: c in t.cvs && c.userId == userId ==> Summary(c) in listed
    ensures forall s :: s in listed ==> exists c :: c in t.cvs && c.userId == userId && Summary(c) == s
  {
    var owned := OwnedCvs(t, userId);
    PermutationSameMembers(listed, Summaries(owned));
    forall c | c in t.cvs && c.userId == userId ensures Summary(c) in listed {
      var k :| 0 <= k < |owned| && owned[k] == c;
      assert Summaries(owned)[k] == Summary(c);
    }
    forall s | s in listed ensures exists c :: c in t.cvs && c.userId == userId && Summary(c) == s {
      var k :| 0 <= k < |owned| && Summaries(owned)[k] == s;
      assert owned[k] in t.cvs;
    }
  }

  /** A CV just added for a user is listed for that user, ahead of every
      older CV of theirs. */
  lemma NewCvListedAheadOfOlder(t: Tables, cv: Cv)
    ensures var r := Get(t.(cvs := t.cvs + [cv]), Some(Principal(cv.userId)));
            r.Ok? &&
            exists k :: 0 <= k < |r.value| && r.value[k] == Summary(cv) &&
              forall m :: 0 <= m < |r.value| && r.value[m].createdAt < cv.createdAt ==> k < m
  {
    var t' := t.(cvs := t.cvs + [cv]);
    var r := Get(t', Some(Principal(cv.userId)));
    assert cv in t'.cvs;
    assert Summary(cv) in r.value;
    var k :| 0 <= k < |r.value| && r.value[k] == Summary(cv);
    forall m | 0 <= m < |r.value| && r.value[m].createdAt < cv.createdAt ensures k < m {
      assert SummaryCreated(r.value[m]) < SummaryCreated(r.value[k]);
    }
  }
}
