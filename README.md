# Trade-union officer records: a verified model

This project models the rule logic of a trade-union officer management system in Dafny. The system is a NestJS back end over PostgreSQL with a React front end. Its users register and verify an email address, keep an officer profile, and upload versioned CVs. Administrators list, filter, activate, edit and remove officers.

The four tables (users, officer_profiles, cvs, officer_history) live in one `Store.Database` object, each as a sequence of rows in insertion order. Each service call that writes is a method on that object. It is proved to keep the database constraints (`Database.Valid`) and its new state is tied to a pure step function (`RegisterStep`, `CreateStep`, `UpdateStatusStep`, …). The properties the services promise are stated on those step functions and in lemmas about them.

Read-only calls are functions over the tables. Examples: login validation, the officer listing with its filters and pages, the CV and profile finders, and the history.

The request-body validators of the profile endpoints are predicates. On the client side the model covers:
- the profile form's `cleanProfileData` pass, as a method with a loop;
- the officer list page's filter bar, status toggle and pagination footer, as a class whose methods update its state, plus pure functions.

Modules, one file each:
- `Wrappers`: `Option`, `Result`.
- `Entities`: rows, enumerations, exceptions, the profile patch and its merge, and the password-hash stand-in.
- `Queries`: first match, filtering, distinct keys and descending sort.
- `Store`: the table constraints and the database object.
- `CvService`, `AuthService`, `ProfileService`, `AdminOfficerService`: the four back-end services.
- `ProfileDto`: the validation of profile request bodies.
- `ProfilePage`: `cleanProfileData`.
- `OfficerListPage`: the administrators' officer list.

Inputs the program takes from its environment are parameters:
- the clock: `now`/`today`, in milliseconds;
- random tokens: `token`;
- the outcome of the e-mail delivery: `mailDelivered`;
- the step at which an upload transaction fails: `fault`;
- the outcome of the status request on the list page: `requestOk`;
- the client's date parser and ISO formatter: `parseDate`/`toIso`;
- the e-mail address syntax: `isEmail`.

Primary keys come from a counter (`Database.nextId`) instead of uuids.

## Model

| member | source | states |
|---|---|---|
| CvService.UploadCv | backend/src/cv/cv.service.ts:34-91 | no file: BadRequest("File is required") and the CV table unchanged; a failing step rolls the table back to its state before the call; otherwise the user's latest row is demoted and one row is appended with the original file name, the next version and isLatest; the other tables are untouched and the constraints are kept |
| CvService.LatestIsLastAndHighest | backend/src/cv/cv.service.ts:45-55 | the row found as the user's latest is the user's last row and carries the highest version |
| CvService.UserWithCvsHasLatest | backend/src/cv/cv.service.ts:45-47 | a user with any CV has a latest one |
| CvService.NoLatestMeansNoCvs | backend/src/cv/cv.service.ts:49 | without a latest row the user has no CV at all, and the next version is 1 |
| CvService.NextVersionIsMaxPlusOne | backend/src/cv/cv.service.ts:49-51 | the next version exceeds every version the user has; it is 1 only when the user has no CV |
| CvService.AtMostOneLatestPerUser | backend/src/cv/cv.service.ts:45-81 | under the table constraints two latest rows of the same user are the same row, and the latest row's version is the user's highest |
| CvService.UploadKeepsValid | backend/src/cv/cv.service.ts:50-81 | demoting the latest row and appending the new one keeps every constraint of the cvs table |
| CvService.UploadLeavesSoleLatest | backend/src/cv/cv.service.ts:53-81 | after an upload the new row is the only latest CV of its user |
| CvService.UploadLeavesOtherUsers | backend/src/cv/cv.service.ts:45-47 | rows of other users keep their position and contents |
| CvService.FindAll | backend/src/cv/cv.service.ts:93-98 | exactly the user's CVs, all of them, highest version first |
| CvService.FindAllStartsWithLatest | backend/src/cv/cv.service.ts:93-98 | for a user with CVs the first row listed is the latest one |
| CvService.FindOne | backend/src/cv/cv.service.ts:100-108 | succeeds iff a CV has both the id and the user id; otherwise NotFound("CV not found") |
| CvService.FindById | backend/src/cv/cv.service.ts:118-126 | succeeds iff a CV has the id, whoever owns it; otherwise NotFound |
| CvService.FindOneAgreesWithFindById | backend/src/cv/cv.service.ts:100-126 | the owner's lookup succeeds exactly when the id lookup finds a CV of that owner, and then returns the same row |
| AuthService.ValidateUser | backend/src/auth/auth.service.ts:27-40 | unknown email: null; Unauthorized only with the unverified-email message; a returned user is a verified account with that email whose password matches, without its hash |
| AuthService.Login | backend/src/auth/auth.service.ts:42-52 | the token's claims and the returned user name the same id, email and role |
| AuthService.ValidateUserCases | backend/src/auth/auth.service.ts:27-40 | with unique emails: a wrong password gives null; a right password on an unverified account gives Unauthorized; on a verified account it gives the account without its hash |
| AuthService.LoginRequiresVerifiedEmail | backend/src/auth/auth.controller.ts:24-31 | a successful login names a verified account holding that email and password |
| AuthService.RegisterStep | backend/src/auth/auth.service.ts:54-85 | Conflict("Email already exists") iff the email is taken, and then no row is added; otherwise one USER row is appended under the new key, active and unverified, with the hash of the password and a verification token expiring 24 hours after `now` |
| AuthService.Register | backend/src/auth/auth.service.ts:54-85 | the users table and the reply are RegisterStep's; a failed email delivery changes neither; the constraints are kept |
| AuthService.RegisterKeepsValid | backend/src/users/user.entity.ts:19-23 | appending an account with a new email and a new key keeps ids and emails unique |
| AuthService.RegisteredCannotLogIn | backend/src/auth/auth.service.ts:29-35 | logging in right after registering is refused with the unverified-email message |
| AuthService.VerifyEmailStep | backend/src/auth/auth.service.ts:87-108 | an unknown token gives BadRequest with the invalid-token message; a held token with a missing or past expiry gives BadRequest with the expired-token message; success iff the token is held and its expiry is not before now; success sets the verified flag and clears the token and its expiry on that row only |
| AuthService.VerifyEmail | backend/src/auth/auth.service.ts:87-108 | the users table and the reply are VerifyEmailStep's; the constraints are kept |
| AuthService.RegisterVerifyLogin | backend/src/auth/auth.service.ts:54-108 | registering, then verifying with the mailed token within 24 hours, lets the same email and password log in |
| AuthService.ForgotPasswordStep | backend/src/auth/auth.service.ts:110-145 | the same success reply whether the email exists or not; an unknown email changes nothing; a known email gives its account the reset token with expiry one hour after `now`, and no other row changes |
| AuthService.ForgotPassword | backend/src/auth/auth.service.ts:110-145 | the users table and the reply are ForgotPasswordStep's; a failed mail leaves the token assigned |
| AuthService.ForgotThenReset | backend/src/auth/auth.service.ts:110-171 | asking for a reset and then resetting with the mailed token within the hour succeeds, and the new password then matches the account's hash |
| AuthService.ResetPasswordStep | backend/src/auth/auth.service.ts:147-171 | unknown token: BadRequest with the invalid-token message; a held token with a missing or past expiry: BadRequest with the expired-token message; no change on either; success iff the token is held and not expired; success replaces the hash and clears the reset token on that row only |
| AuthService.ResetPassword | backend/src/auth/auth.service.ts:147-171 | the users table and the reply are ResetPasswordStep's; the constraints are kept |
| AuthService.ResetTokenSingleUse | backend/src/auth/auth.service.ts:163-170 | a second reset with the same token is refused as invalid |
| AuthService.ResetReplacesPassword | backend/src/auth/auth.service.ts:163-170 | after a reset the new password matches the account's hash; under the injective stand-in for bcrypt, a different old password no longer does (real bcrypt guarantees this only for passwords of at most 72 bytes, see Left out) |
| AuthService.HashInjective | backend/src/auth/auth.service.ts:59 | different passwords have different hashes under the stand-in; bcrypt has this property only for passwords of at most 72 bytes |
| AuthService.ChangePasswordStep | backend/src/auth/auth.service.ts:173-184 | unknown account: Unauthorized and no change; for a known account, success iff the old password matches, and otherwise Unauthorized("Wrong old password") and no change; success replaces only that account's hash with the new password's |
| AuthService.ChangePassword | backend/src/auth/auth.service.ts:173-184 | the users table and the reply are ChangePasswordStep's; the constraints are kept |
| AuthService.WrongOldPasswordKeepsHash | backend/src/auth/auth.service.ts:177-178 | a wrong old password gives Unauthorized("Wrong old password") and leaves the table as it was |
| AuthService.RightOldPasswordChangesHash | backend/src/auth/auth.service.ts:173-184 | with unique ids, the right old password gives the success reply and replaces that account's hash, and only it |
| AuthService.RegisterReplyRevealsToken | backend/src/auth/auth.service.ts:83-84 | the reply as written carries the verification token, and verifying with it succeeds |
| AuthService.RegisterReplyHidesToken | backend/src/auth/auth.service.ts:83-84 | the reply the model returns is the same whatever token was drawn |
| ProfileService.CreateStep | backend/src/profile/profile.service.ts:14-33 | Conflict("Profile already exists for this user") iff the user has a profile; otherwise Conflict("Employee ID is already in use") iff the employee id is taken; otherwise a unique-violation error iff another row holds the national id, and success iff none does; on success one row is appended with the caller's user id and every property of the DTO, gender Male, joined today and not a party member by default, and no contact details or tags |
| ProfileService.Create | backend/src/profile/profile.service.ts:14-33 | the profiles table and the reply are CreateStep's; the constraints are kept |
| ProfileService.CreateKeepsProfilesValid | backend/src/profile/profile.service.ts:15-25 | one profile per user, and employee ids and national ids stay unique |
| ProfileService.FindOne | backend/src/profile/profile.service.ts:35-41 | succeeds iff the user has a profile, returning a profile of that user; otherwise NotFound("Profile not found") |
| ProfileService.CreateThenFindOne | backend/src/profile/profile.service.ts:14-41 | after a successful create, findOne for the user returns the new profile |
| ProfileService.UpdateStep | backend/src/profile/profile.service.ts:43-50 | NotFound without a profile; with one, a null for a required column gives a not-null error, a unique column taken by another row a unique-violation error, and otherwise success with the patch merged into the user's row in place; no change on any error |
| ProfileService.Update | backend/src/profile/profile.service.ts:43-50 | the profiles table and the reply are UpdateStep's; the constraints are kept |
| ProfileService.UpdateKeepsProfilesValid | backend/src/profile/profile.service.ts:43-50 | an update keeps the unique columns unique |
| ProfileService.NullAddressClearsIt | backend/src/profile/profile.service.ts:43-50 | the body `{"address": null}` passes validation and saves the profile with no address and every other column as it was |
| ProfileService.NullFullNameRefused | backend/src/profile/entities/officer-profile.entity.ts:27-28 | the body `{"fullName": null}` passes validation, but the save is refused with the not-null error and the table is unchanged |
| Entities.Merge | backend/src/profile/profile.service.ts:47 | keys are never assigned; a property absent from the patch is kept; a null clears a nullable column (phone, email, address, date of birth, national id) |
| Entities.MergeNoChanges | backend/src/profile/profile.service.ts:47 | merging an empty body changes nothing |
| Entities.MergeFullPatch | backend/src/profile/profile.service.ts:47 | a body carrying every property, nulls included, replaces every column but the keys, and clears no required column |
| Entities.MergeIdempotent | backend/src/profile/profile.service.ts:47 | submitting the same body twice gives the same row as once |
| Entities.MergeThen | backend/src/profile/profile.service.ts:47 | two successive merges, the second one savable, are one merge of the combined body, the later value winning |
| AdminOfficerService.PageNumber | backend/src/admin/admin-officer.service.ts:59-68 | the page defaults to 1 and is at least 1 |
| AdminOfficerService.PageLimit | backend/src/admin/admin-officer.service.ts:59-68 | the page size defaults to 10 and is at least 1 |
| AdminOfficerService.CeilDiv | backend/src/admin/admin-officer.service.ts:131 | the page count is the least number of pages that holds every row; it is zero iff there are no rows |
| AdminOfficerService.FindAll | backend/src/admin/admin-officer.service.ts:58-134 | at most `limit` rows; `total` counts every matching user, not just the page; the page holds min(limit, total - skip) rows, or none past the end; `page`, `limit` and `totalPages = ceil(total/limit)` are reported; every row is the projection of a user who passes every filter; row i is the projection of the officer ranked skip + i among the matching users sorted newest account first (`Ranked`) |
| AdminOfficerService.FindAllListsOnlyUsers | backend/src/admin/admin-officer.service.ts:70-73 | only USER accounts are listed |
| AdminOfficerService.PageArithmetic | backend/src/admin/admin-officer.service.ts:68 | with skip = (page - 1) * limit, item k of a list is shown on page k / limit + 1 at position k mod limit and at no other page and position, and that page is at most ceil(total / limit) |
| AdminOfficerService.MatchingIgnoresPage | backend/src/admin/admin-officer.service.ts:107-111 | the rows counted in `total` do not depend on the page asked for |
| AdminOfficerService.EveryItemOnItsPage | backend/src/admin/admin-officer.service.ts:107-111 | the k-th matching officer, newest first, is row k mod limit of findAll on page k / limit + 1, that page is at most totalPages, and no other page and position shows rank k: the pages partition the matching officers |
| AdminOfficerService.PageUsersListed | backend/src/admin/admin-officer.service.ts:75-111 | every account on a page passes every filter |
| AdminOfficerService.WindowSorted | backend/src/admin/admin-officer.service.ts:107-111 | skip/take of a sorted result is sorted |
| AdminOfficerService.PageNewestFirst | backend/src/admin/admin-officer.service.ts:107-111 | a page lists the newest accounts first |
| AdminOfficerService.EmptyStatusFilterSelectsInactive | backend/src/admin/admin-officer.service.ts:101-105 | an isActive value other than "true", the empty string included, lists only inactive accounts |
| AdminOfficerService.FindOne | backend/src/admin/admin-officer.service.ts:136-152 | succeeds iff the account exists, with that account's email, status and profile; otherwise NotFound("Officer not found") |
| AdminOfficerService.GetHistory | backend/src/admin/admin-officer.service.ts:218-224 | exactly the officer's history rows, each as often as stored, latest change first |
| AdminOfficerService.UpdateStatusStep | backend/src/admin/admin-officer.service.ts:154-181 | success iff the account exists; unknown id: NotFound and no change; an unchanged status: no change at all; otherwise the flag is set and exactly one STATUS history row is appended, with the old and new labels |
| AdminOfficerService.UpdateStatus | backend/src/admin/admin-officer.service.ts:154-181 | the users and history tables and the reply are UpdateStatusStep's; the constraints are kept |
| AdminOfficerService.UpdateStatusIdempotent | backend/src/admin/admin-officer.service.ts:160-175 | repeating a status update changes nothing more and writes no more history |
| AdminOfficerService.UpdateStep | backend/src/admin/admin-officer.service.ts:183-216 | unknown id: NotFound; an account without a profile: success and no change; with a profile, a null for a required column gives a not-null error, a unique column taken by another row a unique-violation error, and otherwise success with the patch merged into the profile; a UNIT history row is appended iff a department is given and differs from the old one; the reply is findOne of the new state |
| AdminOfficerService.Update | backend/src/admin/admin-officer.service.ts:183-216 | the profiles and history tables and the reply are UpdateStep's; the constraints are kept |
| AdminOfficerService.RemoveStep | backend/src/admin/admin-officer.service.ts:226-238 | unknown id: NotFound and all four tables as they were; a known id: the account, its profile, its CVs and its history rows are filtered out, every other row stays, and the reply is the removal message |
| AdminOfficerService.RemoveKeepsValid | backend/src/admin/admin-officer.service.ts:226-238 | deleting an account with its cascade keeps the unique columns, the CV version and latest rules, and every key below the counter |
| AdminOfficerService.Remove | backend/src/admin/admin-officer.service.ts:226-238 | the new tables and the reply are those of RemoveStep, and the database constraints hold afterwards |
| AdminOfficerService.RemovedOfficerIsGone | backend/src/admin/admin-officer.service.ts:226-238 | after removal findOne reports NotFound for the id, every other account is still there, and none of the officer's CVs remains |
| ProfileDto.PrefixIsListed | backend/src/profile/dto/profile.dto.ts:22 | read as intended, the prefix classes admit exactly the 34 listed carrier prefixes |
| ProfileDto.PhoneShape | backend/src/profile/dto/profile.dto.ts:22 | an accepted phone number has 9 or 10 characters, all digits |
| ProfileDto.AsWrittenAdmitsPipe | backend/src/profile/dto/profile.dto.ts:22 | the pattern as written accepts exactly the intended numbers and, besides, numbers carrying a `\|` |
| ProfileDto.PipeNumbersAcceptedAsWritten | backend/src/profile/dto/profile.dto.ts:22 | "5\|1234567", "07\|1234567", "8\|1234567" and "9\|1234567" pass the pattern as written; the first two fail the intended one |
| ProfileDto.PhoneExamples | backend/src/profile/dto/profile.dto.ts:22 | "0912345678" and "381234567" pass; "311234567", "951234567" and an 11-digit number fail |
| ProfileDto.EnumCodesRoundTrip | frontend/src/types/profile.ts:3-48 | every member of Gender, Department, UnionPosition and WorkStatus is accepted under its own code |
| ProfileDto.ParseUpdateBody | backend/src/profile/dto/profile.dto.ts:19-79 | a body is accepted iff every present, non-null property passes its validators; each declared property reaches the patch as left out, null or its value; the patch never carries employeeId, department, isPartyMember, joinDate or tags; a patched phone matches the pattern and a patched email is an address |
| ProfileDto.StrField | backend/src/profile/dto/profile.dto.ts:19-79 | a property left out stays out of the patch, a null is carried as null, and a string as itself |
| ProfileDto.AbsentContactFieldsPass | backend/src/profile/dto/profile.dto.ts:20-29 | leaving out the phone number and the personal email, or sending them as null, never makes a valid body invalid |
| ProfileDto.ParseCreateBody | backend/src/profile/dto/profile.dto.ts:81-143 | a body is accepted iff employeeId and fullName are non-empty strings, unionPosition and department are enumeration codes, and every optional property passes its validators; every DTO field is the body's value for that property |
| ProfileDto.CreateRequiresIdentity | backend/src/profile/dto/profile.dto.ts:82-96 | a body missing employeeId, fullName, department or unionPosition, or with an empty employeeId, is refused |
| ProfilePage.CleanProfileData | frontend/src/pages/ProfilePage.tsx:55-75 | the output keys are a subset of the input keys; in update mode id, userId, createdAt, updatedAt and tags never appear; "", null and undefined are dropped; every other value is copied unchanged; dateOfBirth and joinDate are kept iff they parse, and then in ISO form |
| ProfilePage.CleanedIsStable | frontend/src/pages/ProfilePage.tsx:55-75 | cleaning an already cleaned body leaves it unchanged, given that ISO strings parse back to their instant |
| OfficerListPage.WithFilter | frontend/src/pages/AdminOfficerListPage.tsx:68-69 | a filter change sets the named field and leaves the other three as they were |
| OfficerListPage.RequestQuery | frontend/src/pages/AdminOfficerListPage.tsx:32-40 | a fetch asks for the given page, ten rows a page, and passes every filter on as the string the filter bar holds |
| OfficerListPage.LabelFilterListsNothing | frontend/src/pages/AdminOfficerListPage.tsx:146-178 | choosing any department or position offered by the page lists no account, since the listing compares the label with the stored code |
| OfficerListPage.CodeFilterSelects | backend/src/admin/admin-officer.service.ts:87-95 | with options that send the codes, an account is listed iff its profile has that department and position and it passes the other filters |
| OfficerListPage.Toggled | frontend/src/pages/AdminOfficerListPage.tsx:79-83 | same length and order; rows of that officer get the new status and every other row is unchanged |
| OfficerListPage.ToggleBackRestores | frontend/src/pages/AdminOfficerListPage.tsx:79-83 | toggling back restores the list |
| OfficerListPage.ToggleMatchesServer | frontend/src/pages/AdminOfficerListPage.tsx:79-83 | the row shown after a toggle is the listing's row for the account with the new status |
| OfficerListPage.ListPage.HandleFilterChange | frontend/src/pages/AdminOfficerListPage.tsx:32-74 | the named filter takes the value; a change to the search box fetches page 1 with the new filters once at once, any other filter twice; one more such fetch waits on the search timer |
| OfficerListPage.ListPage.HandleToggleStatus | frontend/src/pages/AdminOfficerListPage.tsx:76-88 | the request asks for the opposite status; after success that officer's rows show it; after failure the list is unchanged |
| OfficerListPage.ListPage.FetchCompleted | frontend/src/pages/AdminOfficerListPage.tsx:41-46 | a received page replaces rows and footer; a failed fetch keeps both |
| OfficerListPage.RangeEnd | frontend/src/pages/AdminOfficerListPage.tsx:343 | the upper end of the shown range never exceeds the total |
| OfficerListPage.RangeMatchesPage | frontend/src/pages/AdminOfficerListPage.tsx:339-343 | on an existing page the range starts after the skipped rows and spans exactly the rows returned |
| OfficerListPage.ButtonsMatchRange | frontend/src/pages/AdminOfficerListPage.tsx:320-327 | on an existing page "Previous" is disabled iff the range starts at row 1, and "Next" iff it ends at the total |
| OfficerListPage.AllStatusesListsOnlyInactive | frontend/src/pages/AdminOfficerListPage.tsx:18-23 | with the status select on "all", every row fetched is an inactive account |
| OfficerListPage.DefaultViewListsOnlyInactive | frontend/src/pages/AdminOfficerListPage.tsx:18-23 | as written, the first view, every filter on "all", matches exactly the inactive USER accounts |
| OfficerListPage.RequestQueryOmittingAll | frontend/src/services/admin.service.ts:16-19 | the intended request: the given page, ten rows a page, and a filter sent only when it is not on "all" |
| OfficerListPage.AllStatusesListsEveryStatus | backend/src/admin/admin-officer.service.ts:101-105 | with the intended request and the status on "all", an account is listed or not whatever its status |
| OfficerListPage.DefaultViewListsEveryOfficer | backend/src/admin/admin-officer.service.ts:70-73 | with the intended request, the first view matches every USER account, active and inactive |
| Store.SaveKeepsProfilesValid | backend/src/profile/entities/officer-profile.entity.ts:20-37 | a save the unique columns accept keeps user_id, employee_id and national_id unique |
| Store.ResaveKeepsUnique | backend/src/profile/entities/officer-profile.entity.ts:20-37 | saving a row again with its unique columns unchanged never violates a unique column |
| Store.CvsValidWithoutUser | backend/src/admin/admin-officer.service.ts:232-233 | the cascade deleting one user's CVs keeps the CV constraints for everybody else |
| Queries.SortDescSorted | backend/src/cv/cv.service.ts:96 | `ORDER BY … DESC` yields a descending permutation of its input |

## Left out

- bcrypt: `Hash` is an injective stand-in without salt, and `Compare` holds exactly for the hash of the password. bcrypt reads only the first 72 bytes of a password, and no length limit is set on passwords (backend/src/auth/auth.controller.ts:54-59). So the stand-in's injectivity (HashInjective), and the second half of ResetReplacesPassword (a different old password no longer matches), hold for bcrypt only for passwords of at most 72 bytes.
- JWT signing: the access token is represented by its claims.
- Passport guards, role decorators, controllers other than the login check, and modules: framework plumbing.
- E-mail delivery is network I/O. Only its outcome is a parameter, and it is ignored, as the services swallow send failures.
- The filesystem in uploadCV (directory creation, the write, the generated file name): the path is a parameter, and a failing write is one of the `fault` steps.
- getFilePath and getFilePathById depend on the filesystem and are not modelled.
- Random tokens and uuids: tokens are parameters, and keys come from a counter.
- Clock arithmetic: `setHours(+24)` and `+ 3600000` are modelled as adding 24 hours or one hour in milliseconds. Daylight-saving shifts are not modelled.
- ILIKE: the search is a case-insensitive substring test with ASCII case folding. `%` and `_` in the search text are not wildcards in the model, and Vietnamese case folding is not modelled.
- Sort ties: rows with equal createdAt, version or changeDate may come out in any order in the database. The model uses one fixed order (stable insertion), and the lemmas state only the descending order and the contents.
- The main.ts validation pipe is not part of this model. Request bodies for ProfileService and AdminOfficerService are patches over the declared properties, as if undeclared properties were stripped.
- ProfileDto: `isEmail` and the ISO date recognizer are parameters, not the validator library's syntax.
- The officer_profiles entity shown declares no unitName, workStatus, education, experience, skills, achievements or tags columns. The model takes them from the services and the front-end types; tags default to empty.
- updatedAt and the database's createdAt default are not modelled; createdAt is kept as a stored value.
- The profile table's foreign key to users is not enforced by `Database.Valid`; Remove deletes the profile by cascade.
- AuthService.Register: the two saves of register (create, then the token update) are one step. A crash between them, leaving an account without a token, is not modelled.
- Database failures of the auth and history saves are not modelled. Only unique-key and not-null violations of profile saves and the upload's transaction steps fail.
- AdminOfficerService.create, seedData, createUnitAdmin and the dashboard service: random data generation and SQL aggregation, outside the rule logic.
- The 500 ms search timer on the list page: its fetch is returned as `delayed`, and its cancellation by another change within 500 ms is not modelled. Rendering is not modelled.
- The key order of `Object.keys` in cleanProfileData: keys are visited in an arbitrary order, which does not change the result.
- Entities.Merge: its contract names the keys, the absent-property case and nulls on nullable columns. The full overwrite is stated through MergeFullPatch, MergeNoChanges and MergeThen rather than per column.
- The columns the officer_profiles entity does not declare (unitName, workStatus, education, experience, skills, achievements) are treated as nullable, so a null clears them; a null tag list leaves no tags.
- ProfileDto.ParseCreateBody: a null optional property is read as absent. The insert would write it as NULL, which the gender, join_date and is_party_member columns refuse; that refusal is not modelled.
- ProfileDto.ParseUpdateBody, ProfileDto.ParseCreateBody, ProfileDto.OptDate: dates are assumed to reach `@IsDateString()` as strings. `@Type(() => Date)` on dateOfBirth and joinDate turns them into Date objects before validation when the transforming pipe runs, and the string check would then refuse every date. The pipe's configuration is not part of this model.
- AuthService.VerifyEmailStep, AuthService.ResetPasswordStep: the finders by token that backend/src/auth/auth.service.ts:88 and :148 call (findOneByVerificationToken, findOneByResetToken) are not defined in backend/src/users/users.service.ts:13-33. The model takes the first row holding the token (VerificationTokenIndex, ResetTokenIndex). An unordered `findOneBy` over several holders of one token returns an unspecified row; that choice is not modelled.
- Entities.DepartmentCode, Entities.UnionPositionCode: backend/src/profile/entities/officer-profile.entity.ts:48-52 declares union_position and department as plain string columns, and the Department and UnionPosition enumerations that the DTOs import from it are not in the file. The model types both columns as enumerations with the codes of frontend/src/types/profile.ts:3-34, so only a code can be stored. LabelFilterListsNothing depends on this: a row holding a label string, written by some other path, would match a label filter.
- CvService.UploadCv: AtMostOneLatestPerUser and UploadLeavesSoleLatest hold for uploads that run one after another. Two concurrent uploads by one user can both read the same latest row and both append a latest row, since no lock and no unique index on (user_id, is_latest) prevents it. Interleaved transactions are not modelled.

## Findings

| source | as written | input that shows it | evidently intended | confidence | as-written member | corrected member |
|---|---|---|---|---|---|---|
| backend/src/profile/dto/profile.dto.ts:22 (repeated at frontend/src/pages/ProfilePage.tsx:555) | the carrier prefixes are written `5[6\|8\|9]`, `7[0\|6-9]`, `8[0-6\|8\|9]`, `9[0-4\|6-9]`; inside a bracket class `\|` is a literal character, so it is an accepted second digit | phone number "5\|1234567" (also "07\|1234567", "8\|1234567", "9\|1234567") passes validation | the classes `[689]`, `[06-9]`, `[0-689]`, `[0-46-9]`: digits only | not executed | ProfileDto.MatchesPhoneAsWritten, shown by ProfileDto.PipeNumbersAcceptedAsWritten and ProfileDto.AsWrittenAdmitsPipe | ProfileDto.IsVietnamesePhone, with ProfileDto.PhoneShape and ProfileDto.PrefixIsListed; used by ProfileDto.ParseUpdateBody |
| frontend/src/pages/AdminOfficerListPage.tsx:146-178 | the department and position selects send the Vietnamese labels ("Ban Tổ chức", "Chủ tịch", …) as their values, and the listing compares the value with the stored code (backend/src/admin/admin-officer.service.ts:87-95) | choosing "Ban Tổ chức" in the department select: no row is listed although officers of ORGANIZATION exist (with the validation pipe, `@IsEnum` refuses the request instead) | options whose value is the code (ORGANIZATION) and whose text is the label, as frontend/src/types/profile.ts:3-18 pairs them | not executed | OfficerListPage.RequestQuery with the labels of OfficerListPage.DEPARTMENT_OPTIONS_AS_WRITTEN, shown by OfficerListPage.LabelFilterListsNothing | OfficerListPage.CodeFilterSelects |
| frontend/src/pages/AdminOfficerListPage.tsx:18-23 | the filters start as "" for "all", and axios sends them (frontend/src/services/admin.service.ts:16-19); the listing applies the status filter whenever isActive is not undefined and compares it with "true" (backend/src/admin/admin-officer.service.ts:101-105) | opening the list page: only inactive officers are listed (with the validation pipe, `@IsBooleanString` on isActive="" and `@IsEnum` on department="" refuse the request with 400 instead); either way the list never shows all officers | a select on "all" is not sent, so the listing shows active and inactive officers alike | not executed | OfficerListPage.RequestQuery, shown by OfficerListPage.AllStatusesListsOnlyInactive and OfficerListPage.DefaultViewListsOnlyInactive | OfficerListPage.RequestQueryOmittingAll, with OfficerListPage.AllStatusesListsEveryStatus and OfficerListPage.DefaultViewListsEveryOfficer |
| backend/src/auth/auth.service.ts:83-84 | register returns the new row without only its hash, so the reply still carries emailVerificationToken | registering any new email: the reply's emailVerificationToken is the token, and verifyEmail with it succeeds without access to the mailbox | a reply without the token columns, so that verification proves ownership of the address | not executed | AuthService.RegisterReplyAsWritten, shown by AuthService.RegisterReplyRevealsToken | AuthService.RegisterStep (reply built by AuthService.PublicView), with AuthService.RegisterReplyHidesToken |
