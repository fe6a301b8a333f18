/**
  * The rows of the four tables (users, officer_profiles, cvs, officer_history),
  * the enumerations they use, and the exceptions the services throw.
  */
module Entities {
  import opened Wrappers

  /** Primary keys. The database generates uuids; the model draws them from a counter. */
  type Id = nat

  /** Instants, in milliseconds since the epoch. */
  type Time = nat

  const HOUR_MS: nat := 3_600_000

  /** The HTTP exceptions thrown by the services; ServerError stands for a failure
      of the database or the filesystem that is rethrown unchanged. */
  datatype HttpException =
    | BadRequest(message: string)
    | Unauthorized(message: string)
    | NotFound(message: string)
    | Conflict(message: string)
    | ServerError(message: string)

  type Response<T> = Result<T, HttpException>

  datatype Role = AdminRole | UnitAdminRole | UserRole

  datatype Department = PropagandaEducation | Organization | PoliciesLaws | Office | WomenAffairs

  datatype UnionPosition =
    | President | VicePresident | ExecutiveCommitteeMember | BoardMember | SpecializedOfficer

  datatype WorkStatus = Active | Transferred | Retired

  datatype Gender = Male | Female | OtherGender

  datatype ChangeType = UnitChange | StatusChange

  /** The string each enumeration member is stored and transmitted as. */
  function RoleCode(r: Role): string {
    match r
    case AdminRole => "ADMIN"
    case UnitAdminRole => "UNIT_ADMIN"
    case UserRole => "USER"
  }

  function DepartmentCode(d: Department): string {
    match d
    case PropagandaEducation => "PROPAGANDA_EDUCATION"
    case Organization => "ORGANIZATION"
    case PoliciesLaws => "POLICIES_LAWS"
    case Office => "OFFICE"
    case WomenAffairs => "WOMEN_AFFAIRS"
  }

  function UnionPositionCode(p: UnionPosition): string {
    match p
    case President => "PRESIDENT"
    case VicePresident => "VICE_PRESIDENT"
    case ExecutiveCommitteeMember => "EXECUTIVE_COMMITTEE_MEMBER"
    case BoardMember => "BOARD_MEMBER"
    case SpecializedOfficer => "SPECIALIZED_OFFICER"
  }

  function WorkStatusCode(w: WorkStatus): string {
    match w
    case Active => "ACTIVE"
    case Transferred => "TRANSFERRED"
    case Retired => "RETIRED"
  }

  function GenderCode(g: Gender): string {
    match g
    case Male => "Male"
    case Female => "Female"
    case OtherGender => "Other"
  }

  /** A row of the users table. */
  datatype User = User(
    id: Id,
    email: string,
    passwordHash: string,
    role: Role,
    isActive: bool,
    isEmailVerified: bool,
    emailVerificationToken: Option<string>,
    emailVerificationTokenExpiresAt: Option<Time>,
    passwordResetToken: Option<string>,
    passwordResetTokenExpiresAt: Option<Time>,
    createdAt: Time)

  /** A row of the cvs table. */
  datatype Cv = Cv(
    id: Id,
    fileName: string,
    filePath: string,
    fileType: string,
    fileSize: nat,
    version: nat,
    isLatest: bool,
    uploadedAt: Time,
    userId: Id)

  /** A row of the officer_history table. */
  datatype OfficerHistory = OfficerHistory(
    id: Id,
    officerId: Id,
    changeType: ChangeType,
    oldValue: string,
    newValue: string,
    note: string,
    changeDate: Time)

  /** A row of the officer_profiles table. */
  datatype OfficerProfile = OfficerProfile(
    id: Id,
    userId: Id,
    employeeId: string,
    fullName: string,
    dateOfBirth: Option<Time>,
    gender: Gender,
    nationalId: Option<string>,
    phoneNumber: Option<string>,
    personalEmail: Option<string>,
    address: Option<string>,
    unionPosition: UnionPosition,
    department: Department,
    joinDate: Time,
    isPartyMember: bool,
    unitName: Option<string>,
    workStatus: Option<WorkStatus>,
    education: Option<string>,
    experience: Option<string>,
    skills: Option<string>,
    achievements: Option<string>,
    tags: seq<string>)

  /** One property of a request body: left out, sent as null, or sent with a value. */
  datatype Field<T> = Absent | Cleared | Given(value: T)

  /** The properties an update body may carry. `Object.assign(profile, dto)` copies
      exactly the present ones, nulls included. */
  datatype ProfilePatch = ProfilePatch(
    employeeId: Field<string>,
    fullName: Field<string>,
    department: Field<Department>,
    unionPosition: Field<UnionPosition>,
    phoneNumber: Field<string>,
    personalEmail: Field<string>,
    address: Field<string>,
    isPartyMember: Field<bool>,
    joinDate: Field<Time>,
    dateOfBirth: Field<Time>,
    gender: Field<Gender>,
    nationalId: Field<string>,
    unitName: Field<string>,
    workStatus: Field<WorkStatus>,
    education: Field<string>,
    experience: Field<string>,
    skills: Field<string>,
    achievements: Field<string>,
    tags: Field<seq<string>>)

  /** An optional value, or a default. */
  function Pick<T>(o: Option<T>, default: T): T {
    if o.Some? then o.value else default
  }

  /** Assigning to a column that admits no null: a value replaces it, and otherwise it is
      kept here, since a null is refused when the row is saved (see ClearsRequired). */
  function Assign<T>(f: Field<T>, current: T): T {
    if f.Given? then f.value else current
  }

  /** Assigning to a nullable column: a null clears it. */
  function AssignOpt<T>(f: Field<T>, current: Option<T>): Option<T> {
    match f
    case Absent => current
    case Cleared => None
    case Given(v) => Some(v)
  }

  /** Assigning to the tag list: a null leaves no tags. */
  function AssignList<T>(f: Field<seq<T>>, current: seq<T>): seq<T> {
    match f
    case Absent => current
    case Cleared => []
    case Given(v) => v
  }

  /** Whether the patch sends null for a column declared without `nullable: true`
      (employee_id, full_name, gender, union_position, department, join_date,
      is_party_member); saving such a row is refused by the database. */
  predicate ClearsRequired(d: ProfilePatch) {
    || d.employeeId.Cleared? || d.fullName.Cleared? || d.gender.Cleared?
    || d.unionPosition.Cleared? || d.department.Cleared? || d.joinDate.Cleared?
    || d.isPartyMember.Cleared?
  }

  /** `Object.assign(profile, patch)`: every property present in the patch
      overwrites the profile's, every other property is kept; a null clears a
      nullable column. */
  function Merge(p: OfficerProfile, d: ProfilePatch): (r: OfficerProfile)
    ensures r.id == p.id && r.userId == p.userId
    ensures !d.employeeId.Given? ==> r.employeeId == p.employeeId
    ensures !d.department.Given? ==> r.department == p.department
    ensures d.phoneNumber.Cleared? ==> r.phoneNumber.None?
    ensures d.personalEmail.Cleared? ==> r.personalEmail.None?
    ensures d.address.Cleared? ==> r.address.None?
    ensures d.dateOfBirth.Cleared? ==> r.dateOfBirth.None?
    ensures d.nationalId.Cleared? ==> r.nationalId.None?
  {
    OfficerProfile(
      id := p.id,
      userId := p.userId,
      employeeId := Assign(d.employeeId, p.employeeId),
      fullName := Assign(d.fullName, p.fullName),
      dateOfBirth := AssignOpt(d.dateOfBirth, p.dateOfBirth),
      gender := Assign(d.gender, p.gender),
      nationalId := AssignOpt(d.nationalId, p.nationalId),
      phoneNumber := AssignOpt(d.phoneNumber, p.phoneNumber),
      personalEmail := AssignOpt(d.personalEmail, p.personalEmail),
      address := AssignOpt(d.address, p.address),
      unionPosition := Assign(d.unionPosition, p.unionPosition),
      department := Assign(d.department, p.department),
      joinDate := Assign(d.joinDate, p.joinDate),
      isPartyMember := Assign(d.isPartyMember, p.isPartyMember),
      unitName := AssignOpt(d.unitName, p.unitName),
      workStatus := AssignOpt(d.workStatus, p.workStatus),
      education := AssignOpt(d.education, p.education),
      experience := AssignOpt(d.experience, p.experience),
      skills := AssignOpt(d.skills, p.skills),
      achievements := AssignOpt(d.achievements, p.achievements),
      tags := AssignList(d.tags, p.tags))
  }

  /** The empty patch. */
  const NoChanges: ProfilePatch := ProfilePatch(
    Absent, Absent, Absent, Absent, Absent, Absent, Absent, Absent, Absent, Absent,
    Absent, Absent, Absent, Absent, Absent, Absent, Absent, Absent, Absent)

  /** Merging the empty patch changes nothing. */
  lemma MergeNoChanges(p: OfficerProfile)
    ensures Merge(p, NoChanges) == p
  {
  }

  /** A nullable column as a property of a body: its value, or null. */
  function Sent<T>(o: Option<T>): Field<T> {
    if o.Some? then Given(o.value) else Cleared
  }

  /** The patch that sends every property of `q` except its keys, nulls included. */
  function PatchOf(q: OfficerProfile): ProfilePatch {
    ProfilePatch(
      Given(q.employeeId), Given(q.fullName), Given(q.department), Given(q.unionPosition),
      Sent(q.phoneNumber), Sent(q.personalEmail), Sent(q.address), Given(q.isPartyMember),
      Given(q.joinDate), Sent(q.dateOfBirth), Given(q.gender), Sent(q.nationalId),
      Sent(q.unitName), Sent(q.workStatus), Sent(q.education), Sent(q.experience),
      Sent(q.skills), Sent(q.achievements), Given(q.tags))
  }

  /** The later of two values sent for one property: an absent property does not override. */
  function Later<T>(f1: Field<T>, f2: Field<T>): Field<T> {
    if f2.Absent? then f1 else f2
  }

  /** Two patches applied one after the other, as one patch: the later one wins. */
  function Then(d1: ProfilePatch, d2: ProfilePatch): ProfilePatch {
    ProfilePatch(
      Later(d1.employeeId, d2.employeeId), Later(d1.fullName, d2.fullName),
      Later(d1.department, d2.department), Later(d1.unionPosition, d2.unionPosition),
      Later(d1.phoneNumber, d2.phoneNumber), Later(d1.personalEmail, d2.personalEmail),
      Later(d1.address, d2.address), Later(d1.isPartyMember, d2.isPartyMember),
      Later(d1.joinDate, d2.joinDate), Later(d1.dateOfBirth, d2.dateOfBirth),
      Later(d1.gender, d2.gender), Later(d1.nationalId, d2.nationalId),
      Later(d1.unitName, d2.unitName), Later(d1.workStatus, d2.workStatus),
      Later(d1.education, d2.education), Later(d1.experience, d2.experience),
      Later(d1.skills, d2.skills), Later(d1.achievements, d2.achievements),
      Later(d1.tags, d2.tags))
  }

  /** A patch sending every property of `q`, nulls included, replaces the whole row but its
      keys, and a row the database accepts clears no required column. */
  lemma MergeFullPatch(p: OfficerProfile, q: OfficerProfile)
    ensures Merge(p, PatchOf(q)) == q.(id := p.id, userId := p.userId)
    ensures !ClearsRequired(PatchOf(q))
  {
  }

  /** Applying a patch twice is the same as applying it once. */
  lemma MergeIdempotent(p: OfficerProfile, d: ProfilePatch)
    ensures Merge(Merge(p, d), d) == Merge(p, d)
  {
  }

  /** Two successive merges are one merge of the combined patch, when the second is one the
      database can save (a null in a required column is never saved). */
  lemma MergeThen(p: OfficerProfile, d1: ProfilePatch, d2: ProfilePatch)
    requires !ClearsRequired(d2)
    ensures Merge(Merge(p, d1), d2) == Merge(p, Then(d1, d2))
  {
  }

  /** bcrypt stand-in. The salt is not modelled: hashing the same password twice
      gives the same string, and `Compare` holds exactly for the hash of the password. */
  function Hash(password: string): string {
    "$2b$10$" + password
  }

  predicate Compare(password: string, hash: string) {
    Hash(password) == hash
  }
}
