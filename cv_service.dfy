/**
  * CV upload and versioning (backend/src/cv/cv.service.ts): every upload demotes
  * the user's current latest CV and inserts a new row one version higher, inside
  * one transaction.
  */
module CvService {
  import opened Wrappers
  import opened Entities
  import opened Queries
  import opened Store

  /** The uploaded file as the multipart interceptor hands it over. */
  datatype UploadedFile = UploadedFile(originalName: string, mimeType: string, size: nat)

  /** Which step of the upload transaction fails, if any; decided by the database and the disk. */
  datatype Fault = NoFault | DemoteSaveFails | FileWriteFails | InsertSaveFails

  /** `findOne(CV, { where: { userId, isLatest: true } })`. */
  function LatestIndex(cvs: seq<Cv>, userId: Id): Option<nat> {
    FirstIndex(cvs, (c: Cv) => c.userId == userId && c.isLatest)
  }

  /** 1 when the user has no latest CV, otherwise the latest one's version plus one. */
  function NextVersion(cvs: seq<Cv>, userId: Id): nat {
    match LatestIndex(cvs, userId)
    case None => 1
    case Some(i) => cvs[i].version + 1
  }

  /** The table after `currentLatest.isLatest = false` has been saved. */
  function Demoted(cvs: seq<Cv>, userId: Id): seq<Cv> {
    match LatestIndex(cvs, userId)
    case None => cvs
    case Some(i) => cvs[i := cvs[i].(isLatest := false)]
  }

  /** Whether the failing step is reached: the demotion is only saved when there is a latest CV. */
  predicate FaultOccurs(cvs: seq<Cv>, userId: Id, fault: Fault) {
    || fault == FileWriteFails || fault == InsertSaveFails
    || (fault == DemoteSaveFails && LatestIndex(cvs, userId).Some?)
  }

  /** The row `cvRepository.create` builds for the upload. */
  function NewCv(id: Id, file: UploadedFile, filePath: string, version: nat, now: Time, userId: Id): Cv {
    Cv(id, file.originalName, filePath, file.mimeType, file.size, version, true, now, userId)
  }

  /** `find({ where: { userId } })` before ordering. */
  function CvsOf(cvs: seq<Cv>, userId: Id): seq<Cv> {
    Filter(cvs, (c: Cv) => c.userId == userId)
  }

  function CvVersion(c: Cv): int { c.version }

  /**
    * uploadCV. The file's stored path is an opaque string chosen by the caller's
    * filesystem layer; `fault` says which step of the transaction fails.
    */
  method UploadCv(db: Database, userId: Id, file: Option<UploadedFile>, filePath: string,
                  now: Time, fault: Fault) returns (r: Response<Cv>)
    requires db.Valid()
    modifies db
    ensures db.Valid()
    ensures db.users == old(db.users) && db.profiles == old(db.profiles)
    ensures db.history == old(db.history)
    ensures file.None? ==> r == Err(BadRequest("File is required")) && db.cvs == old(db.cvs)
    ensures file.Some? && FaultOccurs(old(db.cvs), userId, fault) ==> r.Err? && db.cvs == old(db.cvs)
    ensures file.Some? && !FaultOccurs(old(db.cvs), userId, fault) ==>
      && r == Ok(NewCv(old(db.nextId), file.value, filePath, NextVersion(old(db.cvs), userId), now, userId))
      && db.cvs == Demoted(old(db.cvs), userId) + [r.value]
  {
    if file.None? {
      return Err(BadRequest("File is required"));
    }
    // the transaction's pending writes: a rollback discards them, the commit saves them
    var pending := db.cvs;
    var latest := LatestIndex(db.cvs, userId);
    var nextVersion := 1;
    if latest.Some? {
      var i := latest.value;
      nextVersion := db.cvs[i].version + 1;
      if fault == DemoteSaveFails {
        return Err(ServerError("saving the demoted CV failed"));
      }
      pending := pending[i := pending[i].(isLatest := false)];
    }
    if fault == FileWriteFails {
      return Err(ServerError("writing the file failed"));
    }
    if fault == InsertSaveFails {
      return Err(ServerError("saving the new CV failed"));
    }
    var id := db.NewId();
    var row := NewCv(id, file.value, filePath, nextVersion, now, userId);
    UploadKeepsValid(db.cvs, userId, row);
    db.Commit(db.users, db.profiles, pending + [row], db.history);
    r := Ok(row);
  }

  /** A latest row is the last row of its user and carries the highest version. */
  lemma LatestIsLastAndHighest(cvs: seq<Cv>, userId: Id)
    requires CvsValid(cvs) && LatestIndex(cvs, userId).Some?
    ensures var l := LatestIndex(cvs, userId).value;
      forall j :: 0 <= j < |cvs| && j != l && cvs[j].userId == userId ==>
        j < l && cvs[j].version < cvs[l].version && !cvs[j].isLatest
  {
    var l := LatestIndex(cvs, userId).value;
    forall j | 0 <= j < |cvs| && j != l && cvs[j].userId == userId
      ensures j < l && cvs[j].version < cvs[l].version && !cvs[j].isLatest
    {
      if l < j {
        assert false;
      }
    }
  }

  /** A user with any CV has a latest one. */
  lemma UserWithCvsHasLatest(cvs: seq<Cv>, userId: Id, j: nat)
    requires CvsValid(cvs) && j < |cvs| && cvs[j].userId == userId
    ensures LatestIndex(cvs, userId).Some?
  {
    assert HasLatestFrom(cvs, j);
    var k :| j <= k < |cvs| && cvs[k].userId == cvs[j].userId && cvs[k].isLatest;
    assert cvs[k].userId == userId && cvs[k].isLatest;
  }

  /** A user without a latest row has no rows at all, so the first upload is version 1. */
  lemma NoLatestMeansNoCvs(cvs: seq<Cv>, userId: Id)
    requires CvsValid(cvs) && LatestIndex(cvs, userId).None?
    ensures forall j :: 0 <= j < |cvs| ==> cvs[j].userId != userId
    ensures NextVersion(cvs, userId) == 1
  {
    forall j | 0 <= j < |cvs| ensures cvs[j].userId != userId {
      if cvs[j].userId == userId {
        UserWithCvsHasLatest(cvs, userId, j);
      }
    }
  }

  /** The next version is higher than every version the user already has, and one
      more than the highest when there is one. */
  lemma NextVersionIsMaxPlusOne(cvs: seq<Cv>, userId: Id)
    requires CvsValid(cvs)
    ensures forall j :: 0 <= j < |cvs| && cvs[j].userId == userId ==> cvs[j].version < NextVersion(cvs, userId)
    ensures NextVersion(cvs, userId) == 1 || exists j :: 0 <= j < |cvs| && cvs[j].userId == userId
                                                  && cvs[j].version + 1 == NextVersion(cvs, userId)
  {
    match LatestIndex(cvs, userId)
    case None => NoLatestMeansNoCvs(cvs, userId);
    case Some(l) => LatestIsLastAndHighest(cvs, userId);
  }

  /** The key invariant: at most one latest row per user, and it carries the user's highest version. */
  lemma AtMostOneLatestPerUser(cvs: seq<Cv>)
    requires CvsValid(cvs)
    ensures forall i, j :: (0 <= i < |cvs| && 0 <= j < |cvs| && cvs[i].isLatest && cvs[j].isLatest
                           && cvs[i].userId == cvs[j].userId) ==> i == j
    ensures forall i, j :: (0 <= i < |cvs| && 0 <= j < |cvs| && cvs[i].isLatest
                           && cvs[i].userId == cvs[j].userId) ==> cvs[j].version <= cvs[i].version
  {
  }

  /** The table an upload commits keeps every constraint of the cvs table. */
  lemma UploadKeepsValid(cvs: seq<Cv>, userId: Id, row: Cv)
    requires CvsValid(cvs)
    requires row.userId == userId && row.isLatest && row.version == NextVersion(cvs, userId)
    requires forall i :: 0 <= i < |cvs| ==> cvs[i].id != row.id
    ensures CvsValid(Demoted(cvs, userId) + [row])
  {
    match LatestIndex(cvs, userId)
    case None =>
      FirstUploadKeepsValid(cvs, userId, row);
    case Some(l) =>
      LatestIsLastAndHighest(cvs, userId);
      NextUploadOrdered(cvs, userId, row, l);
      NextUploadHasLatest(cvs, userId, row, l);
  }

  /** A user's first CV, version 1, appended to a consistent table. */
  lemma FirstUploadKeepsValid(cvs: seq<Cv>, userId: Id, row: Cv)
    requires CvsValid(cvs) && LatestIndex(cvs, userId).None?
    requires row.userId == userId && row.isLatest && row.version == 1
    requires forall i :: 0 <= i < |cvs| ==> cvs[i].id != row.id
    ensures CvsValid(cvs + [row])
  {
    var after := cvs + [row];
    var n := |cvs|;
    NoLatestMeansNoCvs(cvs, userId);
    forall i | 0 <= i < |after| ensures HasLatestFrom(after, i) {
      if i < n {
        assert HasLatestFrom(cvs, i);
        var k :| i <= k < n && cvs[k].userId == cvs[i].userId && cvs[k].isLatest;
        assert after[k] == cvs[k];
      } else {
        assert after[n] == row;
      }
    }
  }

  /** With the latest row `l` demoted and a higher version appended, keys stay distinct and
      versions keep growing per user, with only a user's last row latest. */
  lemma NextUploadOrdered(cvs: seq<Cv>, userId: Id, row: Cv, l: nat)
    requires CvsValid(cvs) && l < |cvs| && cvs[l].userId == userId && cvs[l].isLatest
    requires forall j :: 0 <= j < |cvs| && j != l && cvs[j].userId == userId ==>
      j < l && cvs[j].version < cvs[l].version && !cvs[j].isLatest
    requires row.userId == userId && row.isLatest && row.version == cvs[l].version + 1
    requires forall i :: 0 <= i < |cvs| ==> cvs[i].id != row.id
    ensures var after := cvs[l := cvs[l].(isLatest := false)] + [row];
      && DistinctBy(after, CvKey)
      && (forall i :: 0 <= i < |after| ==> after[i].version >= 1)
      && (forall i, j :: 0 <= i < j < |after| && after[i].userId == after[j].userId ==>
            after[i].version < after[j].version && !after[i].isLatest)
  {
    var after := cvs[l := cvs[l].(isLatest := false)] + [row];
    var n := |cvs|;
    assert forall i :: 0 <= i < n ==>
      (after[i].id == cvs[i].id && after[i].userId == cvs[i].userId && after[i].version == cvs[i].version);
    assert forall i :: 0 <= i < n && i != l ==> after[i] == cvs[i];
    forall i, j | 0 <= i < j < |after| && after[i].userId == after[j].userId
      ensures after[i].version < after[j].version && !after[i].isLatest
    {
      if j == n {
        assert after[j] == row;
      }
    }
  }

  /** With the latest row `l` demoted and the new row appended, every row has a latest row
      of its user at or after it. */
  lemma NextUploadHasLatest(cvs: seq<Cv>, userId: Id, row: Cv, l: nat)
    requires CvsValid(cvs) && l < |cvs| && cvs[l].userId == userId
    requires row.userId == userId && row.isLatest
    ensures var after := cvs[l := cvs[l].(isLatest := false)] + [row];
      forall i :: 0 <= i < |after| ==> HasLatestFrom(after, i)
  {
    var after := cvs[l := cvs[l].(isLatest := false)] + [row];
    var n := |cvs|;
    assert after[n] == row;
    forall i | 0 <= i < |after| ensures HasLatestFrom(after, i) {
      if i < n && after[i].userId != userId {
        assert HasLatestFrom(cvs, i);
        var k :| i <= k < n && cvs[k].userId == cvs[i].userId && cvs[k].isLatest;
        assert after[k] == cvs[k];
      }
    }
  }

  /** After an upload the new row is the only latest CV of its user. */
  lemma UploadLeavesSoleLatest(cvs: seq<Cv>, userId: Id, row: Cv)
    requires CvsValid(cvs) && row.userId == userId && row.isLatest
    ensures var after := Demoted(cvs, userId) + [row];
      forall j :: 0 <= j < |after| && after[j].userId == userId && after[j].isLatest <==> j == |cvs|
  {
    var after := Demoted(cvs, userId) + [row];
    match LatestIndex(cvs, userId)
    case None =>
      NoLatestMeansNoCvs(cvs, userId);
    case Some(l) =>
      LatestIsLastAndHighest(cvs, userId);
      assert forall j :: 0 <= j < |cvs| && j != l ==> after[j] == cvs[j];
  }

  /** Rows of other users are untouched: each keeps its position and contents. */
  lemma UploadLeavesOtherUsers(cvs: seq<Cv>, userId: Id, row: Cv, other: Id)
    requires row.userId == userId && other != userId
    ensures var after := Demoted(cvs, userId) + [row];
      && (forall j :: 0 <= j < |cvs| && cvs[j].userId != userId ==> after[j] == cvs[j])
      && CvsOf(after, other) == CvsOf(cvs, other)
  {
    var p := (c: Cv) => c.userId == other;
    match LatestIndex(cvs, userId)
    case None =>
      FilterAppend(cvs, [row], p);
    case Some(l) =>
      var d := cvs[l := cvs[l].(isLatest := false)];
      FilterUpdateRejected(cvs, p, l, cvs[l].(isLatest := false));
      FilterAppend(d, [row], p);
  }

  /** findAll: the user's CVs, highest version first. */
  function FindAll(cvs: seq<Cv>, userId: Id): (r: seq<Cv>)
    ensures forall c :: c in r <==> c in cvs && c.userId == userId
    ensures |r| == |CvsOf(cvs, userId)|
    ensures forall i, j :: 0 <= i < j < |r| ==> r[i].version >= r[j].version
  {
    var mine := CvsOf(cvs, userId);
    SortDescSorted(mine, CvVersion);
    forall c ensures c in mine <==> c in cvs && c.userId == userId {
      if c in cvs && c.userId == userId {
        var i :| 0 <= i < |cvs| && cvs[i] == c;
      }
      if c in mine {
        var i :| 0 <= i < |mine| && mine[i] == c;
      }
    }
    SortDesc(mine, CvVersion)
  }

  /** In a list ordered by descending version, a row whose version beats every other
      row's comes first. */
  lemma HighestComesFirst(r: seq<Cv>, x: Cv)
    requires x in r
    requires forall i, j :: 0 <= i < j < |r| ==> r[i].version >= r[j].version
    requires forall y :: y in r && y != x ==> y.version < x.version
    ensures r[0] == x
  {
    var m :| 0 <= m < |r| && r[m] == x;
    assert r[0].version >= x.version;
  }

  /** Under the table constraints the first CV findAll lists is the latest one. */
  lemma FindAllStartsWithLatest(cvs: seq<Cv>, userId: Id)
    requires CvsValid(cvs) && exists j :: 0 <= j < |cvs| && cvs[j].userId == userId
    ensures |FindAll(cvs, userId)| > 0 && FindAll(cvs, userId)[0].isLatest
  {
    var j :| 0 <= j < |cvs| && cvs[j].userId == userId;
    var r := FindAll(cvs, userId);
    assert cvs[j] in r;
    match LatestIndex(cvs, userId)
    case None =>
      NoLatestMeansNoCvs(cvs, userId);
    case Some(l) =>
      LatestIsLastAndHighest(cvs, userId);
      forall y | y in r && y != cvs[l] ensures y.version < cvs[l].version {
        var k :| 0 <= k < |cvs| && cvs[k] == y;
      }
      HighestComesFirst(r, cvs[l]);
  }

  /** findOne: the CV with this id, provided it belongs to this user. */
  function FindOne(cvs: seq<Cv>, id: Id, userId: Id): (r: Response<Cv>)
    ensures r.Ok? <==> exists i :: 0 <= i < |cvs| && cvs[i].id == id && cvs[i].userId == userId
    ensures r.Ok? ==> r.value in cvs && r.value.id == id && r.value.userId == userId
    ensures r.Err? ==> r.error == NotFound("CV not found")
  {
    match FirstIndex(cvs, (c: Cv) => c.id == id && c.userId == userId)
    case None => Err(NotFound("CV not found"))
    case Some(i) => Ok(cvs[i])
  }

  /** findById: the CV with this id, whoever owns it. */
  function FindById(cvs: seq<Cv>, id: Id): (r: Response<Cv>)
    ensures r.Ok? <==> exists i :: 0 <= i < |cvs| && cvs[i].id == id
    ensures r.Ok? ==> r.value in cvs && r.value.id == id
    ensures r.Err? ==> r.error == NotFound("CV not found")
  {
    match FirstIndex(cvs, (c: Cv) => c.id == id)
    case None => Err(NotFound("CV not found"))
    case Some(i) => Ok(cvs[i])
  }

  /** The owner's lookup and the administrator's lookup agree on the owner's CVs. */
  lemma FindOneAgreesWithFindById(cvs: seq<Cv>, id: Id, userId: Id)
    requires CvsValid(cvs)
    ensures FindOne(cvs, id, userId).Ok? <==> FindById(cvs, id).Ok? && FindById(cvs, id).value.userId == userId
    ensures FindOne(cvs, id, userId).Ok? ==> FindOne(cvs, id, userId) == FindById(cvs, id)
  {
    if FindById(cvs, id).Ok? {
      var c := FindById(cvs, id).value;
      var k :| 0 <= k < |cvs| && cvs[k] == c;
      assert forall i :: 0 <= i < |cvs| && cvs[i].id == id ==> i == k by {
        assert DistinctBy(cvs, CvKey);
      }
    }
    if FindOne(cvs, id, userId).Ok? {
      var c := FindOne(cvs, id, userId).value;
      var k :| 0 <= k < |cvs| && cvs[k] == c;
      assert forall i :: 0 <= i < |cvs| && cvs[i].id == id ==> i == k by {
        assert DistinctBy(cvs, CvKey);
      }
    }
  }
}
