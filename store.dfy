/**
  * The database: the four tables the services read and write, each a sequence of
  * rows in insertion order, and the constraints that hold between service calls.
  */
module Store {
  import opened Wrappers
  import opened Entities
  import opened Queries

  function UserKey(u: User): Id { u.id }
  function UserEmail(u: User): string { u.email }
  function ProfileKey(p: OfficerProfile): Id { p.id }
  function ProfileOwner(p: OfficerProfile): Id { p.userId }
  function ProfileEmployeeId(p: OfficerProfile): string { p.employeeId }
  function CvKey(c: Cv): Id { c.id }
  function HistoryKey(h: OfficerHistory): Id { h.id }

  /** Every generated key is below the next one the counter hands out. */
  ghost predicate KeysBelow<T>(s: seq<T>, key: T -> Id, bound: Id) {
    forall i :: 0 <= i < |s| ==> key(s[i]) < bound
  }

  /** users: primary key id, unique email (user.entity.ts). */
  ghost predicate UsersValid(users: seq<User>) {
    DistinctBy(users, UserKey) && DistinctBy(users, UserEmail)
  }

  /** A national id, or for a row without one its primary key: with distinct primary keys,
      distinct values of this key mean distinct national ids among the rows that have one. */
  datatype NationalKey = NationalId(nid: string) | NoNationalId(id: Id)

  function ProfileNationalKey(p: OfficerProfile): NationalKey {
    if p.nationalId.Some? then NationalId(p.nationalId.value) else NoNationalId(p.id)
  }

  /** officer_profiles: primary key id, unique user_id, unique employee_id, and a unique
      national_id among the rows that have one (a unique column admits many nulls). */
  ghost predicate ProfilesValid(profiles: seq<OfficerProfile>) {
    && DistinctBy(profiles, ProfileKey) && DistinctBy(profiles, ProfileOwner)
    && DistinctBy(profiles, ProfileEmployeeId)
    && DistinctBy(profiles, ProfileNationalKey)
  }

  /** The database's refusals of a profile save, as the service passes them on. */
  const UNIQUE_VIOLATION_MSG: string := "duplicate key value violates unique constraint"
  const NOT_NULL_MSG: string := "null value in column violates not-null constraint"

  /** Whether saving `p` at position `at` (`|profiles|` for an insert) would break a unique
      column of officer_profiles against another row; the database then refuses the save. */
  predicate UniqueViolation(profiles: seq<OfficerProfile>, at: nat, p: OfficerProfile) {
    exists k :: 0 <= k < |profiles| && k != at &&
      (|| profiles[k].userId == p.userId || profiles[k].employeeId == p.employeeId
       || (p.nationalId.Some? && profiles[k].nationalId == p.nationalId))
  }

  /** `save(profile)`: overwrite the row at `at`, or append when `at` is past the end. */
  function Saved(profiles: seq<OfficerProfile>, at: nat, p: OfficerProfile): seq<OfficerProfile> {
    if at < |profiles| then profiles[at := p] else profiles + [p]
  }

  /** Saving a row again with its unique columns unchanged never breaks a unique column. */
  lemma ResaveKeepsUnique(profiles: seq<OfficerProfile>, at: nat, p: OfficerProfile)
    requires ProfilesValid(profiles) && at < |profiles|
    requires p.userId == profiles[at].userId && p.employeeId == profiles[at].employeeId
    requires p.nationalId == profiles[at].nationalId
    ensures !UniqueViolation(profiles, at, p)
  {
    forall k | 0 <= k < |profiles| && k != at
      ensures profiles[k].userId != p.userId && profiles[k].employeeId != p.employeeId
      ensures p.nationalId.Some? ==> profiles[k].nationalId != p.nationalId
    {
      if k < at {
        assert ProfileNationalKey(profiles[k]) != ProfileNationalKey(profiles[at]);
      } else {
        assert ProfileNationalKey(profiles[at]) != ProfileNationalKey(profiles[k]);
      }
    }
  }

  /** A save the unique columns accept keeps the table consistent. */
  lemma SaveKeepsProfilesValid(profiles: seq<OfficerProfile>, at: nat, p: OfficerProfile)
    requires ProfilesValid(profiles) && at <= |profiles| && !UniqueViolation(profiles, at, p)
    requires at < |profiles| ==> p.id == profiles[at].id
    requires at == |profiles| ==> forall k :: 0 <= k < |profiles| ==> profiles[k].id != p.id
    ensures ProfilesValid(Saved(profiles, at, p))
  {
    var s := Saved(profiles, at, p);
    assert |s| == |profiles| || |s| == |profiles| + 1;
    assert forall k :: 0 <= k < |s| && k != at ==> s[k] == profiles[k];
    assert at < |s| && s[at] == p;
    forall i, j | 0 <= i < j < |s|
      ensures ProfileKey(s[i]) != ProfileKey(s[j]) && ProfileOwner(s[i]) != ProfileOwner(s[j])
      ensures ProfileEmployeeId(s[i]) != ProfileEmployeeId(s[j])
      ensures ProfileNationalKey(s[i]) != ProfileNationalKey(s[j])
    {
      if i == at {
        assert s[j] == profiles[j];
      } else if j == at {
        assert s[i] == profiles[i];
      } else {
        assert s[i] == profiles[i] && s[j] == profiles[j];
      }
    }
  }

  /** Some row at or after position i belongs to the same user and is marked latest. */
  ghost predicate HasLatestFrom(cvs: seq<Cv>, i: nat)
    requires i < |cvs|
  {
    exists j :: i <= j < |cvs| && cvs[j].userId == cvs[i].userId && cvs[j].isLatest
  }

  /**
    * cvs: primary key id; versions start at 1 and grow with every upload of the
    * same user; a user's rows are all not-latest except the most recent one.
    */
  ghost predicate CvsValid(cvs: seq<Cv>) {
    && DistinctBy(cvs, CvKey)
    && (forall i :: 0 <= i < |cvs| ==> cvs[i].version >= 1)
    && (forall i, j :: 0 <= i < j < |cvs| && cvs[i].userId == cvs[j].userId ==>
          cvs[i].version < cvs[j].version && !cvs[i].isLatest)
    && (forall i :: 0 <= i < |cvs| ==> HasLatestFrom(cvs, i))
  }

  /** Saving a row back under its own id and email keeps the users table consistent. */
  lemma UserSaveKeepsValid(users: seq<User>, i: nat, u: User, bound: Id)
    requires UsersValid(users) && KeysBelow(users, UserKey, bound)
    requires i < |users| && u.id == users[i].id && u.email == users[i].email
    ensures UsersValid(users[i := u]) && KeysBelow(users[i := u], UserKey, bound)
  {
    var s := users[i := u];
    assert forall k :: 0 <= k < |s| ==> UserKey(s[k]) == UserKey(users[k]) && UserEmail(s[k]) == UserEmail(users[k]);
  }

  /** Deleting rows never breaks a unique column or the key bound. */
  lemma {:induction false} FilterKeysBelow<T>(s: seq<T>, p: T -> bool, key: T -> Id, bound: Id)
    requires KeysBelow(s, key, bound)
    ensures KeysBelow(Filter(s, p), key, bound)
  {
    if |s| > 0 {
      FilterKeysBelow(s[1..], p, key, bound);
    }
  }

  lemma FilterKeepsUsersValid(users: seq<User>, p: User -> bool)
    requires UsersValid(users)
    ensures UsersValid(Filter(users, p))
  {
    FilterKeepsDistinct(users, p, UserKey);
    FilterKeepsDistinct(users, p, UserEmail);
  }

  lemma FilterKeepsProfilesValid(profiles: seq<OfficerProfile>, p: OfficerProfile -> bool)
    requires ProfilesValid(profiles)
    ensures ProfilesValid(Filter(profiles, p))
  {
    FilterKeepsDistinct(profiles, p, ProfileKey);
    FilterKeepsDistinct(profiles, p, ProfileOwner);
    FilterKeepsDistinct(profiles, p, ProfileEmployeeId);
    FilterKeepsDistinct(profiles, p, ProfileNationalKey);
  }

  /** The CV invariant of a table whose first row is `c`, in terms of the rest. */
  lemma CvsValidCons(c: Cv, t: seq<Cv>)
    requires CvsValid(t) && c.version >= 1
    requires forall j :: 0 <= j < |t| ==> t[j].id != c.id
    requires forall j :: 0 <= j < |t| && t[j].userId == c.userId ==> c.version < t[j].version && !c.isLatest
    requires c.isLatest || exists j :: 0 <= j < |t| && t[j].userId == c.userId && t[j].isLatest
    ensures CvsValid([c] + t)
  {
    var s := [c] + t;
    assert forall j :: 1 <= j < |s| ==> s[j] == t[j - 1];
    assert s[0] == c;
    forall i | 0 <= i < |s| ensures HasLatestFrom(s, i) {
      if i == 0 {
        if !c.isLatest {
          var j :| 0 <= j < |t| && t[j].userId == c.userId && t[j].isLatest;
          assert s[j + 1] == t[j];
        }
      } else {
        assert HasLatestFrom(t, i - 1);
        var j :| i - 1 <= j < |t| && t[j].userId == t[i - 1].userId && t[j].isLatest;
        assert s[j + 1] == t[j];
      }
    }
  }

  /** The rest of a consistent CV table is consistent. */
  lemma CvsValidTail(cvs: seq<Cv>)
    requires CvsValid(cvs) && |cvs| > 0
    ensures CvsValid(cvs[1..])
  {
    var t := cvs[1..];
    forall i | 0 <= i < |t| ensures HasLatestFrom(t, i) {
      assert HasLatestFrom(cvs, i + 1);
      var j :| i + 1 <= j < |cvs| && cvs[j].userId == cvs[i + 1].userId && cvs[j].isLatest;
      assert t[j - 1] == cvs[j];
    }
  }

  /** The first row of a consistent table, put in front of a consistent selection of the
      other rows that keeps every row of the first row's user, gives a consistent table. */
  lemma CvsValidKeepHead(cvs: seq<Cv>, t: seq<Cv>)
    requires CvsValid(cvs) && |cvs| > 0 && CvsValid(t)
    requires forall j :: 0 <= j < |t| ==> t[j] in cvs[1..]
    requires forall j :: 1 <= j < |cvs| && cvs[j].userId == cvs[0].userId ==> cvs[j] in t
    ensures CvsValid([cvs[0]] + t)
  {
    var c := cvs[0];
    forall j | 0 <= j < |t|
      ensures t[j].id != c.id
      ensures t[j].userId == c.userId ==> c.version < t[j].version && !c.isLatest
    {
      var k :| 0 <= k < |cvs[1..]| && cvs[1..][k] == t[j];
      assert cvs[k + 1] == t[j];
      assert CvKey(cvs[0]) != CvKey(cvs[k + 1]);
    }
    if !c.isLatest {
      assert HasLatestFrom(cvs, 0);
      var k :| 0 <= k < |cvs| && cvs[k].userId == c.userId && cvs[k].isLatest;
      assert k != 0;
      assert cvs[k] in t;
    }
    CvsValidCons(c, t);
  }

  /** Deleting every CV of one user (the cascade of a user's deletion) keeps the CV
      invariant for everybody else. */
  lemma {:induction false} CvsValidWithoutUser(cvs: seq<Cv>, userId: Id)
    requires CvsValid(cvs)
    ensures CvsValid(Filter(cvs, (c: Cv) => c.userId != userId))
  {
    var p := (c: Cv) => c.userId != userId;
    if |cvs| > 0 {
      CvsValidTail(cvs);
      CvsValidWithoutUser(cvs[1..], userId);
      if p(cvs[0]) {
        var t := Filter(cvs[1..], p);
        forall j | 1 <= j < |cvs| && cvs[j].userId == cvs[0].userId ensures cvs[j] in t {
          assert cvs[1..][j - 1] == cvs[j];
        }
        CvsValidKeepHead(cvs, t);
      }
    }
  }

/** Every table consistent, and every primary key below the counter `bound`. */
  ghost predicate TablesValid(users: seq<User>, profiles: seq<OfficerProfile>, cvs: seq<Cv>,
                              history: seq<OfficerHistory>, bound: Id) {
    && UsersValid(users) && ProfilesValid(profiles) && CvsValid(cvs)
    && KeysBelow(users, UserKey, bound) && KeysBelow(profiles, ProfileKey, bound)
    && KeysBelow(cvs, CvKey, bound) && KeysBelow(history, HistoryKey, bound)
  }

    class Database {
    var users: seq<User>
    var profiles: seq<OfficerProfile>
    var cvs: seq<Cv>
    var history: seq<OfficerHistory>
    var nextId: Id

    ghost predicate Valid()
      reads this
    {
      TablesValid(users, profiles, cvs, history, nextId)
    }

    /** The counter is above every key in use. */
    ghost predicate KeysFresh()
      reads this
    {
      && KeysBelow(users, UserKey, nextId) && KeysBelow(profiles, ProfileKey, nextId)
      && KeysBelow(cvs, CvKey, nextId) && KeysBelow(history, HistoryKey, nextId)
    }

    constructor ()
      ensures Valid()
      ensures users == [] && profiles == [] && cvs == [] && history == []
    {
      users, profiles, cvs, history := [], [], [], [];
      nextId := 0;
    }

    /** Writes all four tables at once, as one transaction saving consistent rows. */
    method Commit(u: seq<User>, p: seq<OfficerProfile>, c: seq<Cv>, h: seq<OfficerHistory>)
      requires TablesValid(u, p, c, h, nextId)
      modifies this`users, this`profiles, this`cvs, this`history
      ensures Valid()
      ensures users == u && profiles == p && cvs == c && history == h
    {
      users, profiles, cvs, history := u, p, c, h;
    }

    /** A primary key that no row of any table carries. */
    method NewId() returns (id: Id)
      requires KeysFresh()
      modifies this`nextId
      ensures KeysFresh()
      ensures id == old(nextId) && nextId == id + 1
    {
      id := nextId;
      nextId := nextId + 1;
    }
  }
}
