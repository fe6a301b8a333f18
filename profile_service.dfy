/**
  * Officer profiles (backend/src/profile/profile.service.ts): one profile per user,
  * a unique employee id, and updates that merge a partial body into the stored row.
  */
module ProfileService {
  import opened Wrappers
  import opened Entities
  import opened Queries
  import opened Store
  import opened ProfileDto

  const PROFILE_EXISTS_MSG: string := "Profile already exists for this user"
  const EMPLOYEE_ID_TAKEN_MSG: string := "Employee ID is already in use"
  const PROFILE_NOT_FOUND_MSG: string := "Profile not found"

  /** `create({ userId, ...dto })` with the column defaults filled in: gender Male,
      not a party member, joined today, no tags. */
  function NewProfile(id: Id, userId: Id, dto: CreateProfileDto, today: Time): OfficerProfile {
    OfficerProfile(
      id := id, userId := userId, employeeId := dto.employeeId, fullName := dto.fullName,
      dateOfBirth := dto.dateOfBirth, gender := Pick(dto.gender, Male),
      nationalId := dto.nationalId, phoneNumber := None, personalEmail := None, address := None,
      unionPosition := dto.unionPosition, department := dto.department,
      joinDate := Pick(dto.joinDate, today), isPartyMember := Pick(dto.isPartyMember, false),
      unitName := dto.unitName, workStatus := dto.workStatus, education := dto.education,
      experience := dto.experience, skills := dto.skills, achievements := dto.achievements,
      tags := [])
  }

  function OwnerIndex(profiles: seq<OfficerProfile>, userId: Id): Option<nat> {
    FirstIndex(profiles, (p: OfficerProfile) => p.userId == userId)
  }

  function EmployeeIndex(profiles: seq<OfficerProfile>, employeeId: string): Option<nat> {
    FirstIndex(profiles, (p: OfficerProfile) => p.employeeId == employeeId)
  }

  /** Whether another profile already holds that national id (a null one clashes with none). */
  predicate NationalIdTaken(profiles: seq<OfficerProfile>, nationalId: Option<string>) {
    nationalId.Some? && exists k :: 0 <= k < |profiles| && profiles[k].nationalId == nationalId
  }

  /** create on the profiles table: Conflict when the user already has a profile or the
      employee id is taken, a database error when the national id is taken, otherwise the
      new row appended. */
  function CreateStep(profiles: seq<OfficerProfile>, id: Id, userId: Id, dto: CreateProfileDto, today: Time)
    : (r: (seq<OfficerProfile>, Response<OfficerProfile>))
    ensures (exists k :: 0 <= k < |profiles| && profiles[k].userId == userId) <==>
      r.1 == Err(Conflict(PROFILE_EXISTS_MSG))
    ensures ((forall k :: 0 <= k < |profiles| ==> profiles[k].userId != userId) &&
             (exists k :: 0 <= k < |profiles| && profiles[k].employeeId == dto.employeeId)) <==>
      r.1 == Err(Conflict(EMPLOYEE_ID_TAKEN_MSG))
    ensures (forall k :: 0 <= k < |profiles| ==> profiles[k].userId != userId && profiles[k].employeeId != dto.employeeId) ==>
      && (NationalIdTaken(profiles, dto.nationalId) <==> r.1 == Err(ServerError(UNIQUE_VIOLATION_MSG)))
      && (!NationalIdTaken(profiles, dto.nationalId) <==> r.1.Ok?)
    ensures r.1.Err? ==> r.0 == profiles
    ensures r.1.Ok? ==>
      && r.0 == profiles + [r.1.value]
      && r.1.value.id == id && r.1.value.userId == userId
      && r.1.value.employeeId == dto.employeeId && r.1.value.fullName == dto.fullName
      && r.1.value.unionPosition == dto.unionPosition && r.1.value.department == dto.department
      && r.1.value.nationalId == dto.nationalId && r.1.value.dateOfBirth == dto.dateOfBirth
      && r.1.value.unitName == dto.unitName && r.1.value.workStatus == dto.workStatus
      && r.1.value.education == dto.education && r.1.value.experience == dto.experience
      && r.1.value.skills == dto.skills && r.1.value.achievements == dto.achievements
      && (dto.gender.Some? ==> r.1.value.gender == dto.gender.value)
      && (dto.gender.None? ==> r.1.value.gender == Male)
      && (dto.joinDate.Some? ==> r.1.value.joinDate == dto.joinDate.value)
      && (dto.joinDate.None? ==> r.1.value.joinDate == today)
      && (r.1.value.isPartyMember <==> dto.isPartyMember == Some(true))
      && r.1.value.phoneNumber.None? && r.1.value.personalEmail.None? && r.1.value.address.None?
      && r.1.value.tags == []
  {
    if OwnerIndex(profiles, userId).Some? then (profiles, Err(Conflict(PROFILE_EXISTS_MSG)))
    else if EmployeeIndex(profiles, dto.employeeId).Some? then (profiles, Err(Conflict(EMPLOYEE_ID_TAKEN_MSG)))
    else
      var p := NewProfile(id, userId, dto, today);
      if UniqueViolation(profiles, |profiles|, p) then (profiles, Err(ServerError(UNIQUE_VIOLATION_MSG)))
      else (profiles + [p], Ok(p))
  }

  /** create. `today` is the database's CURRENT_DATE. */
  method Create(db: Database, userId: Id, dto: CreateProfileDto, today: Time) returns (r: Response<OfficerProfile>)
    requires db.Valid()
    modifies db
    ensures db.Valid()
    ensures db.users == old(db.users) && db.cvs == old(db.cvs) && db.history == old(db.history)
    ensures (db.profiles, r) == CreateStep(old(db.profiles), old(db.nextId), userId, dto, today)
  {
    var existing := OwnerIndex(db.profiles, userId);
    if existing.Some? {
      return Err(Conflict(PROFILE_EXISTS_MSG));
    }
    var existingEmployee := EmployeeIndex(db.profiles, dto.employeeId);
    if existingEmployee.Some? {
      return Err(Conflict(EMPLOYEE_ID_TAKEN_MSG));
    }
    var id := db.NewId();
    var p := NewProfile(id, userId, dto, today);
    if UniqueViolation(db.profiles, |db.profiles|, p) {
      return Err(ServerError(UNIQUE_VIOLATION_MSG));
    }
    SaveKeepsProfilesValid(db.profiles, |db.profiles|, p);
    db.profiles := db.profiles + [p];
    r := Ok(p);
  }

  /** A create keeps one profile per user and unique employee ids. */
  lemma CreateKeepsProfilesValid(profiles: seq<OfficerProfile>, id: Id, userId: Id, dto: CreateProfileDto, today: Time)
    requires ProfilesValid(profiles)
    requires forall k :: 0 <= k < |profiles| ==> profiles[k].id != id
    ensures ProfilesValid(CreateStep(profiles, id, userId, dto, today).0)
  {
    var r := CreateStep(profiles, id, userId, dto, today);
    if r.1.Ok? {
      SaveKeepsProfilesValid(profiles, |profiles|, r.1.value);
    }
  }

  /** findOne: the caller's profile, or NotFound. */
  function FindOne(profiles: seq<OfficerProfile>, userId: Id): (r: Response<OfficerProfile>)
    ensures r.Ok? <==> exists k :: 0 <= k < |profiles| && profiles[k].userId == userId
    ensures r.Ok? ==> r.value.userId == userId && r.value in profiles
    ensures r.Err? ==> r.error == NotFound(PROFILE_NOT_FOUND_MSG)
  {
    match OwnerIndex(profiles, userId)
    case None => Err(NotFound(PROFILE_NOT_FOUND_MSG))
    case Some(i) => Ok(profiles[i])
  }

  /** The profile a successful create stores is the one findOne returns afterwards. */
  lemma CreateThenFindOne(profiles: seq<OfficerProfile>, id: Id, userId: Id, dto: CreateProfileDto, today: Time)
    requires CreateStep(profiles, id, userId, dto, today).1.Ok?
    ensures var r := CreateStep(profiles, id, userId, dto, today);
      FindOne(r.0, userId) == Ok(r.1.value)
  {
    var r := CreateStep(profiles, id, userId, dto, today);
    var after := r.0;
    assert after[|profiles|] == r.1.value;
    assert ((p: OfficerProfile) => p.userId == userId)(after[|profiles|]);
    assert forall j :: 0 <= j < |profiles| ==> after[j] == profiles[j];
  }

  /** update on the profiles table: NotFound without a profile, otherwise the patch merged
      into the stored row and saved, unless the database refuses the save: a null in a
      required column, or a unique column taken by another row. */
  function UpdateStep(profiles: seq<OfficerProfile>, userId: Id, patch: ProfilePatch)
    : (r: (seq<OfficerProfile>, Response<OfficerProfile>))
    ensures r.1.Err? ==> r.0 == profiles
    ensures (forall k :: 0 <= k < |profiles| ==> profiles[k].userId != userId) ==>
      r.1 == Err(NotFound(PROFILE_NOT_FOUND_MSG))
    ensures forall i :: 0 <= i < |profiles| && OwnerIndex(profiles, userId) == Some(i) ==>
      && (ClearsRequired(patch) ==> r.1 == Err(ServerError(NOT_NULL_MSG)))
      && (!ClearsRequired(patch) && UniqueViolation(profiles, i, Merge(profiles[i], patch)) ==>
            r.1 == Err(ServerError(UNIQUE_VIOLATION_MSG)))
      && (!ClearsRequired(patch) && !UniqueViolation(profiles, i, Merge(profiles[i], patch)) ==>
            r.1 == Ok(Merge(profiles[i], patch)))
    ensures r.1.Ok? ==>
      exists i :: (0 <= i < |profiles| && profiles[i].userId == userId
        && r.1.value == Merge(profiles[i], patch) && r.0 == profiles[i := r.1.value])
  {
    match OwnerIndex(profiles, userId)
    case None => (profiles, Err(NotFound(PROFILE_NOT_FOUND_MSG)))
    case Some(i) =>
      var merged := Merge(profiles[i], patch);
      if ClearsRequired(patch) then (profiles, Err(ServerError(NOT_NULL_MSG)))
      else if UniqueViolation(profiles, i, merged) then (profiles, Err(ServerError(UNIQUE_VIOLATION_MSG)))
      else (profiles[i := merged], Ok(merged))
  }

  /** update. `patch` holds the properties present in the request body. */
  method Update(db: Database, userId: Id, patch: ProfilePatch) returns (r: Response<OfficerProfile>)
    requires db.Valid()
    modifies db`profiles
    ensures db.Valid()
    ensures (db.profiles, r) == UpdateStep(old(db.profiles), userId, patch)
  {
    var found := FindOne(db.profiles, userId);
    if found.Err? {
      return Err(found.error);
    }
    var i := OwnerIndex(db.profiles, userId).value;
    var profile := db.profiles[i];
    profile := Merge(profile, patch);
    if ClearsRequired(patch) {
      return Err(ServerError(NOT_NULL_MSG));
    }
    if UniqueViolation(db.profiles, i, profile) {
      return Err(ServerError(UNIQUE_VIOLATION_MSG));
    }
    SaveKeepsProfilesValid(db.profiles, i, profile);
    db.profiles := db.profiles[i := profile];
    r := Ok(profile);
  }

  /** An update keeps the profile's keys, overwrites what the patch carries, keeps the
      rest, and keeps the table consistent. */
  lemma UpdateKeepsProfilesValid(profiles: seq<OfficerProfile>, userId: Id, patch: ProfilePatch)
    requires ProfilesValid(profiles)
    ensures ProfilesValid(UpdateStep(profiles, userId, patch).0)
    ensures var r := UpdateStep(profiles, userId, patch);
      r.1.Ok? ==> r.1.value.userId == userId && FindOne(r.0, userId) == r.1
  {
    var r := UpdateStep(profiles, userId, patch);
    if r.1.Ok? {
      var i := OwnerIndex(profiles, userId).value;
      SaveKeepsProfilesValid(profiles, i, r.1.value);
      assert ((p: OfficerProfile) => p.userId == userId)(r.0[i]);
      var k := OwnerIndex(r.0, userId).value;
      assert ProfileOwner(r.0[k]) == ProfileOwner(r.0[i]);
    }
  }

  /** A body `{"address": null}` passes validation and saves the profile without an
      address, leaving every other property as it was. */
  lemma NullAddressClearsIt(profiles: seq<OfficerProfile>, userId: Id, isEmail: string -> bool,
                            parseDate: string -> Option<Time>)
    requires ProfilesValid(profiles)
    requires exists k :: 0 <= k < |profiles| && profiles[k].userId == userId
    ensures var patch := ParseUpdateBody(map["address" := Null], isEmail, parseDate);
      && patch.Some?
      && var i := OwnerIndex(profiles, userId).value;
         UpdateStep(profiles, userId, patch.value).1 == Ok(profiles[i].(address := None))
  {
    var body := map["address" := Null];
    var patch := ParseUpdateBody(body, isEmail, parseDate).value;
    assert patch == NoChanges.(address := Cleared);
    var i := OwnerIndex(profiles, userId).value;
    ResaveKeepsUnique(profiles, i, Merge(profiles[i], patch));
  }

  /** A body `{"fullName": null}` passes validation, but full_name admits no null: the save
      is refused and the profile stays as it was. */
  lemma NullFullNameRefused(profiles: seq<OfficerProfile>, userId: Id, isEmail: string -> bool,
                            parseDate: string -> Option<Time>)
    requires exists k :: 0 <= k < |profiles| && profiles[k].userId == userId
    ensures var patch := ParseUpdateBody(map["fullName" := Null], isEmail, parseDate);
      && patch.Some?
      && UpdateStep(profiles, userId, patch.value) == (profiles, Err(ServerError(NOT_NULL_MSG)))
  {
    var patch := ParseUpdateBody(map["fullName" := Null], isEmail, parseDate).value;
    assert patch.fullName == Cleared;
  }
}
