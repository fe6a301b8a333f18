/**
  * The request bodies of the profile endpoints and their field constraints
  * (backend/src/profile/dto/profile.dto.ts): the Vietnamese phone-number pattern,
  * required and enumerated fields, and the conversion of a valid body into the
  * values the profile service works with.
  */
module ProfileDto {
  import opened Wrappers
  import opened Entities

  // ----- the phone-number pattern ---------------------------------------------

  predicate IsDigit(c: char) { '0' <= c <= '9' }

  predicate AllDigits(s: string) {
    forall i :: 0 <= i < |s| ==> IsDigit(s[i])
  }

  /** The five alternatives `3[2-9]|5[6|8|9]|7[0|6-9]|8[0-6|8|9]|9[0-4|6-9]` as written:
      inside a bracket class `|` is an ordinary character, so it is one of the accepted
      second characters of every class that lists it. */
  predicate PrefixAsWritten(a: char, b: char) {
    || (a == '3' && '2' <= b <= '9')
    || (a == '5' && (b == '6' || b == '|' || b == '8' || b == '9'))
    || (a == '7' && (b == '0' || b == '|' || '6' <= b <= '9'))
    || (a == '8' && ('0' <= b <= '6' || b == '|' || b == '8' || b == '9'))
    || (a == '9' && ('0' <= b <= '4' || b == '|' || '6' <= b <= '9'))
  }

  /** The same alternatives read as the author meant them: `[6|8|9]` as `[689]`. */
  predicate Prefix(a: char, b: char) {
    PrefixAsWritten(a, b) && b != '|'
  }

  /** `^(0?)(...)[0-9]{7}$` as written. The alternatives never start with 0, so the
      optional leading 0 is taken exactly when the string has ten characters. */
  predicate MatchesPhoneAsWritten(s: string) {
    || (|s| == 9 && PrefixAsWritten(s[0], s[1]) && AllDigits(s[2..]))
    || (|s| == 10 && s[0] == '0' && PrefixAsWritten(s[1], s[2]) && AllDigits(s[3..]))
  }

  /** The pattern as intended: an optional 0, a two-digit carrier prefix, seven digits. */
  predicate IsVietnamesePhone(s: string) {
    || (|s| == 9 && Prefix(s[0], s[1]) && AllDigits(s[2..]))
    || (|s| == 10 && s[0] == '0' && Prefix(s[1], s[2]) && AllDigits(s[3..]))
  }

  /** The two-digit prefixes the intended pattern admits, listed one by one. */
  const CARRIER_PREFIXES: set<string> := {
    "32", "33", "34", "35", "36", "37", "38", "39",
    "56", "58", "59",
    "70", "76", "77", "78", "79",
    "80", "81", "82", "83", "84", "85", "86", "88", "89",
    "90", "91", "92", "93", "94", "96", "97", "98", "99"}

  /** The bracket classes, read as intended, admit exactly the listed prefixes. */
  lemma PrefixIsListed(a: char, b: char)
    ensures Prefix(a, b) <==> [a, b] in CARRIER_PREFIXES
  {
    if [a, b] in CARRIER_PREFIXES {
      var p := [a, b];
      assert p[0] == a && p[1] == b;
    }
  }

  /** An accepted number has 9 or 10 characters, all of them digits once it is read as
      intended. */
  lemma PhoneShape(s: string)
    requires IsVietnamesePhone(s)
    ensures |s| == 9 || |s| == 10
    ensures AllDigits(s)
  {
    var k := |s| - 9;
    forall i | 0 <= i < |s| ensures IsDigit(s[i]) {
      if i >= k + 2 {
        assert s[i] == s[k + 2..][i - k - 2];
      }
    }
  }

  /** As written, the pattern accepts exactly the intended numbers plus those whose
      prefix carries a `|` as its second character. */
  lemma AsWrittenAdmitsPipe(s: string)
    ensures MatchesPhoneAsWritten(s) <==> IsVietnamesePhone(s) || (MatchesPhoneAsWritten(s) && '|' in s)
    ensures IsVietnamesePhone(s) ==> MatchesPhoneAsWritten(s) && '|' !in s
  {
    if IsVietnamesePhone(s) {
      PhoneShape(s);
      forall i | 0 <= i < |s| ensures s[i] != '|' {
        assert IsDigit(s[i]);
      }
    }
  }

  /** Numbers the pattern as written accepts and the intended pattern rejects. */
  lemma PipeNumbersAcceptedAsWritten()
    ensures MatchesPhoneAsWritten("5|1234567") && !IsVietnamesePhone("5|1234567")
    ensures MatchesPhoneAsWritten("07|1234567") && !IsVietnamesePhone("07|1234567")
    ensures MatchesPhoneAsWritten("8|1234567") && MatchesPhoneAsWritten("9|1234567")
  {
    assert AllDigits("1234567");
    assert "5|1234567"[2..] == "1234567";
    assert "07|1234567"[3..] == "1234567";
    assert "8|1234567"[2..] == "1234567";
    assert "9|1234567"[2..] == "1234567";
  }

  /** Numbers both readings accept, and numbers both reject: "31" and "95" are not
      prefixes, and an eleven-digit number is too long. */
  lemma PhoneExamples()
    ensures IsVietnamesePhone("0912345678") && IsVietnamesePhone("381234567")
    ensures !MatchesPhoneAsWritten("311234567") && !MatchesPhoneAsWritten("951234567")
    ensures !MatchesPhoneAsWritten("09123456789")
  {
    assert AllDigits("2345678");
    assert "0912345678"[3..] == "2345678";
    assert "381234567"[2..] == "1234567";
    assert AllDigits("1234567");
  }

  // ----- enumerations ---------------------------------------------------------

  function ParseGender(s: string): (r: Option<Gender>)
    ensures r.Some? ==> GenderCode(r.value) == s
  {
    if s == "Male" then Some(Male) else if s == "Female" then Some(Female)
    else if s == "Other" then Some(OtherGender) else None
  }

  function ParseDepartment(s: string): (r: Option<Department>)
    ensures r.Some? ==> DepartmentCode(r.value) == s
  {
    if s == "PROPAGANDA_EDUCATION" then Some(PropagandaEducation)
    else if s == "ORGANIZATION" then Some(Organization)
    else if s == "POLICIES_LAWS" then Some(PoliciesLaws)
    else if s == "OFFICE" then Some(Office)
    else if s == "WOMEN_AFFAIRS" then Some(WomenAffairs)
    else None
  }

  function ParseUnionPosition(s: string): (r: Option<UnionPosition>)
    ensures r.Some? ==> UnionPositionCode(r.value) == s
  {
    if s == "PRESIDENT" then Some(President)
    else if s == "VICE_PRESIDENT" then Some(VicePresident)
    else if s == "EXECUTIVE_COMMITTEE_MEMBER" then Some(ExecutiveCommitteeMember)
    else if s == "BOARD_MEMBER" then Some(BoardMember)
    else if s == "SPECIALIZED_OFFICER" then Some(SpecializedOfficer)
    else None
  }

  function ParseWorkStatus(s: string): (r: Option<WorkStatus>)
    ensures r.Some? ==> WorkStatusCode(r.value) == s
  {
    if s == "ACTIVE" then Some(Active) else if s == "TRANSFERRED" then Some(Transferred)
    else if s == "RETIRED" then Some(Retired) else None
  }

  /** Every member of an enumeration is accepted under its own code, so parsing and the
      codes are inverse to each other. */
  lemma EnumCodesRoundTrip(g: Gender, d: Department, p: UnionPosition, w: WorkStatus)
    ensures ParseGender(GenderCode(g)) == Some(g)
    ensures ParseDepartment(DepartmentCode(d)) == Some(d)
    ensures ParseUnionPosition(UnionPositionCode(p)) == Some(p)
    ensures ParseWorkStatus(WorkStatusCode(w)) == Some(w)
  {
  }

  // ----- request bodies -------------------------------------------------------

  /** A JSON value of a request body. */
  datatype Value = Str(s: string) | Bool(b: bool) | Num(n: int) | Null | StrList(items: seq<string>)

  type Body = map<string, Value>

  /** The value of a property, treating null like an absent property (`@IsOptional`). */
  function Get(body: Body, key: string): Option<Value> {
    if key in body && body[key] != Null then Some(body[key]) else None
  }

  predicate OptString(body: Body, key: string) {
    Get(body, key).None? || Get(body, key).value.Str?
  }

  predicate OptBool(body: Body, key: string) {
    Get(body, key).None? || Get(body, key).value.Bool?
  }

  /** `@IsDateString()`: `parseDate` stands for the ISO-8601 recognizer and its instant. */
  predicate OptDate(body: Body, key: string, parseDate: string -> Option<Time>) {
    Get(body, key).None? || (Get(body, key).value.Str? && parseDate(Get(body, key).value.s).Some?)
  }

  predicate OptPhone(body: Body) {
    Get(body, "phoneNumber").None?
    || (Get(body, "phoneNumber").value.Str? && IsVietnamesePhone(Get(body, "phoneNumber").value.s))
  }

  /** `@IsEmail()`: `isEmail` stands for the validator's address syntax. */
  predicate OptEmail(body: Body, isEmail: string -> bool) {
    Get(body, "personalEmail").None?
    || (Get(body, "personalEmail").value.Str? && isEmail(Get(body, "personalEmail").value.s))
  }

  predicate OptGender(body: Body) {
    Get(body, "gender").None? || (Get(body, "gender").value.Str? && ParseGender(Get(body, "gender").value.s).Some?)
  }

  predicate OptUnionPosition(body: Body) {
    Get(body, "unionPosition").None?
    || (Get(body, "unionPosition").value.Str? && ParseUnionPosition(Get(body, "unionPosition").value.s).Some?)
  }

  predicate OptWorkStatus(body: Body) {
    Get(body, "workStatus").None?
    || (Get(body, "workStatus").value.Str? && ParseWorkStatus(Get(body, "workStatus").value.s).Some?)
  }

  /** UpdateProfileDto: every property is optional, and each present one must pass its
      validators. */
  predicate UpdateBodyValid(body: Body, isEmail: string -> bool, parseDate: string -> Option<Time>) {
    && OptPhone(body) && OptEmail(body, isEmail)
    && OptString(body, "address") && OptString(body, "fullName")
    && OptDate(body, "dateOfBirth", parseDate) && OptGender(body)
    && OptString(body, "nationalId") && OptString(body, "unitName")
    && OptUnionPosition(body) && OptWorkStatus(body)
    && OptString(body, "education") && OptString(body, "experience")
    && OptString(body, "skills") && OptString(body, "achievements")
  }

  /** A string property of a create body; null and absent alike give None. */
  function StrOf(body: Body, key: string): (r: Option<string>)
    ensures r.Some? <==> key in body && body[key].Str?
    ensures r.Some? ==> body[key] == Str(r.value)
  {
    if Get(body, key).Some? && Get(body, key).value.Str? then Some(Get(body, key).value.s) else None
  }

  function BoolOf(body: Body, key: string): (r: Option<bool>)
    ensures r.Some? <==> key in body && body[key].Bool?
    ensures r.Some? ==> body[key] == Bool(r.value)
  {
    if Get(body, key).Some? && Get(body, key).value.Bool? then Some(Get(body, key).value.b) else None
  }

  /** A string property of a create body read by `parse` (an enumeration or a date). */
  function ParsedOf<E>(body: Body, key: string, parse: string -> Option<E>): (r: Option<E>)
    ensures r.Some? <==> key in body && body[key].Str? && parse(body[key].s).Some?
    ensures r.Some? ==> parse(body[key].s) == Some(r.value)
  {
    if StrOf(body, key).Some? then parse(StrOf(body, key).value) else None
  }

  /** A property as an update patch carries it: left out, null, or its string. A value of
      another kind never reaches the patch, since validation refuses it. */
  function StrField(body: Body, key: string): (r: Field<string>)
    ensures r.Absent? <==> key !in body || (body[key] != Null && !body[key].Str?)
    ensures r.Cleared? <==> key in body && body[key] == Null
    ensures r.Given? ==> body[key] == Str(r.value)
  {
    if key !in body then Absent
    else if body[key] == Null then Cleared
    else if body[key].Str? then Given(body[key].s)
    else Absent
  }

  /** A property of an update patch read by `parse` (an enumeration or a date). */
  function ParsedField<E>(body: Body, key: string, parse: string -> Option<E>): (r: Field<E>)
    ensures r.Cleared? <==> key in body && body[key] == Null
    ensures r.Given? ==> key in body && body[key].Str? && parse(body[key].s) == Some(r.value)
  {
    match StrField(body, key)
    case Absent => Absent
    case Cleared => Cleared
    case Given(s) => if parse(s).Some? then Given(parse(s).value) else Absent
  }

  /** A validated update body as the patch the service merges: the declared properties
      that are present, null or not, and nothing else. */
  function ParseUpdateBody(body: Body, isEmail: string -> bool, parseDate: string -> Option<Time>)
    : (r: Option<ProfilePatch>)
    ensures r.Some? <==> UpdateBodyValid(body, isEmail, parseDate)
    ensures r.Some? ==> && r.value.employeeId.Absent? && r.value.department.Absent?
                        && r.value.isPartyMember.Absent? && r.value.joinDate.Absent? && r.value.tags.Absent?
    ensures r.Some? && r.value.phoneNumber.Given? ==> IsVietnamesePhone(r.value.phoneNumber.value)
    ensures r.Some? && r.value.personalEmail.Given? ==> isEmail(r.value.personalEmail.value)
    ensures r.Some? ==> (r.value.phoneNumber.Absent? <==> "phoneNumber" !in body)
    ensures r.Some? ==> (r.value.address.Absent? <==> "address" !in body)
    ensures r.Some? ==>
      && r.value.fullName == StrField(body, "fullName")
      && r.value.phoneNumber == StrField(body, "phoneNumber")
      && r.value.personalEmail == StrField(body, "personalEmail")
      && r.value.address == StrField(body, "address")
      && r.value.dateOfBirth == ParsedField(body, "dateOfBirth", parseDate)
      && r.value.gender == ParsedField(body, "gender", ParseGender)
      && r.value.nationalId == StrField(body, "nationalId")
      && r.value.unitName == StrField(body, "unitName")
      && r.value.unionPosition == ParsedField(body, "unionPosition", ParseUnionPosition)
      && r.value.workStatus == ParsedField(body, "workStatus", ParseWorkStatus)
      && r.value.education == StrField(body, "education")
      && r.value.experience == StrField(body, "experience")
      && r.value.skills == StrField(body, "skills")
      && r.value.achievements == StrField(body, "achievements")
  {
    if !UpdateBodyValid(body, isEmail, parseDate) then None
    else Some(ProfilePatch(
      employeeId := Absent, fullName := StrField(body, "fullName"), department := Absent,
      unionPosition := ParsedField(body, "unionPosition", ParseUnionPosition),
      phoneNumber := StrField(body, "phoneNumber"), personalEmail := StrField(body, "personalEmail"),
      address := StrField(body, "address"), isPartyMember := Absent, joinDate := Absent,
      dateOfBirth := ParsedField(body, "dateOfBirth", parseDate),
      gender := ParsedField(body, "gender", ParseGender), nationalId := StrField(body, "nationalId"),
      unitName := StrField(body, "unitName"), workStatus := ParsedField(body, "workStatus", ParseWorkStatus),
      education := StrField(body, "education"), experience := StrField(body, "experience"),
      skills := StrField(body, "skills"), achievements := StrField(body, "achievements"),
      tags := Absent))
  }

  /** Leaving out the phone number and the personal email, or sending them as null, never
      makes a valid update body invalid. */
  lemma AbsentContactFieldsPass(body: Body, isEmail: string -> bool, parseDate: string -> Option<Time>)
    requires UpdateBodyValid(body, isEmail, parseDate)
    ensures UpdateBodyValid(body - {"phoneNumber", "personalEmail"}, isEmail, parseDate)
    ensures UpdateBodyValid(body["phoneNumber" := Null]["personalEmail" := Null], isEmail, parseDate)
  {
    var b1 := body - {"phoneNumber", "personalEmail"};
    var b2 := body["phoneNumber" := Null]["personalEmail" := Null];
    forall key | key != "phoneNumber" && key != "personalEmail"
      ensures Get(b1, key) == Get(body, key) && Get(b2, key) == Get(body, key)
    {
    }
  }

  /** `@IsNotEmpty() @IsString()`: present, not null, a string, and not empty. */
  predicate RequiredString(body: Body, key: string) {
    Get(body, key).Some? && Get(body, key).value.Str? && Get(body, key).value.s != ""
  }

  /** CreateProfileDto: employeeId and fullName required non-empty strings, unionPosition
      and department required enumeration members, every other property optional. */
  predicate CreateBodyValid(body: Body, parseDate: string -> Option<Time>) {
    && RequiredString(body, "employeeId") && RequiredString(body, "fullName")
    && StrOf(body, "unionPosition").Some? && ParseUnionPosition(StrOf(body, "unionPosition").value).Some?
    && StrOf(body, "department").Some? && ParseDepartment(StrOf(body, "department").value).Some?
    && OptString(body, "nationalId") && OptDate(body, "dateOfBirth", parseDate)
    && OptGender(body) && OptBool(body, "isPartyMember") && OptDate(body, "joinDate", parseDate)
    && OptString(body, "unitName") && OptWorkStatus(body)
    && OptString(body, "education") && OptString(body, "experience")
    && OptString(body, "skills") && OptString(body, "achievements")
  }

  /** The validated create body the profile service receives. */
  datatype CreateProfileDto = CreateProfileDto(
    employeeId: string,
    fullName: string,
    unionPosition: UnionPosition,
    department: Department,
    nationalId: Option<string>,
    dateOfBirth: Option<Time>,
    gender: Option<Gender>,
    isPartyMember: Option<bool>,
    joinDate: Option<Time>,
    unitName: Option<string>,
    workStatus: Option<WorkStatus>,
    education: Option<string>,
    experience: Option<string>,
    skills: Option<string>,
    achievements: Option<string>)

  function ParseCreateBody(body: Body, parseDate: string -> Option<Time>): (r: Option<CreateProfileDto>)
    ensures r.Some? <==> CreateBodyValid(body, parseDate)
    ensures r.Some? ==> r.value.employeeId != "" && r.value.fullName != ""
    ensures r.Some? ==> body["employeeId"] == Str(r.value.employeeId) && body["fullName"] == Str(r.value.fullName)
    ensures r.Some? ==> body["department"] == Str(DepartmentCode(r.value.department))
    ensures r.Some? ==> body["unionPosition"] == Str(UnionPositionCode(r.value.unionPosition))
    ensures r.Some? ==>
      && r.value.nationalId == StrOf(body, "nationalId")
      && r.value.dateOfBirth == ParsedOf(body, "dateOfBirth", parseDate)
      && r.value.gender == ParsedOf(body, "gender", ParseGender)
      && r.value.isPartyMember == BoolOf(body, "isPartyMember")
      && r.value.joinDate == ParsedOf(body, "joinDate", parseDate)
      && r.value.unitName == StrOf(body, "unitName")
      && r.value.workStatus == ParsedOf(body, "workStatus", ParseWorkStatus)
      && r.value.education == StrOf(body, "education")
      && r.value.experience == StrOf(body, "experience")
      && r.value.skills == StrOf(body, "skills")
      && r.value.achievements == StrOf(body, "achievements")
  {
    if !CreateBodyValid(body, parseDate) then None
    else
      Some(CreateProfileDto(
        employeeId := StrOf(body, "employeeId").value, fullName := StrOf(body, "fullName").value,
        unionPosition := ParseUnionPosition(StrOf(body, "unionPosition").value).value,
        department := ParseDepartment(StrOf(body, "department").value).value,
        nationalId := StrOf(body, "nationalId"), dateOfBirth := ParsedOf(body, "dateOfBirth", parseDate),
        gender := ParsedOf(body, "gender", ParseGender), isPartyMember := BoolOf(body, "isPartyMember"),
        joinDate := ParsedOf(body, "joinDate", parseDate), unitName := StrOf(body, "unitName"),
        workStatus := ParsedOf(body, "workStatus", ParseWorkStatus),
        education := StrOf(body, "education"), experience := StrOf(body, "experience"),
        skills := StrOf(body, "skills"), achievements := StrOf(body, "achievements")))
  }

  /** A create body missing a required property, or carrying it empty, is refused. */
  lemma CreateRequiresIdentity(body: Body, parseDate: string -> Option<Time>)
    requires "employeeId" !in body || body["employeeId"] == Str("") || "fullName" !in body
      || "department" !in body || "unionPosition" !in body
    ensures ParseCreateBody(body, parseDate).None?
  {
  }
}
