/**
  * Accounts and their token lifecycle (backend/src/auth/auth.service.ts):
  * registration leaves an account unverified with a 24-hour verification token,
  * verification clears it, a password-reset request hands out a 1-hour token that
  * a reset consumes, and only verified accounts may log in.
  */
module AuthService {
  import opened Wrappers
  import opened Entities
  import opened Queries
  import opened Store

  const VERIFICATION_TTL: nat := 24 * HOUR_MS
  const RESET_TTL: nat := HOUR_MS

  const UNVERIFIED_MSG: string := "Email chưa được xác thực. Vui lòng kiểm tra email của bạn."
  const INVALID_CREDENTIALS_MSG: string := "Invalid credentials"
  const EMAIL_EXISTS_MSG: string := "Email already exists"
  const INVALID_VERIFY_MSG: string := "Token xác thực không hợp lệ"
  const EXPIRED_VERIFY_MSG: string := "Token xác thực đã hết hạn"
  const INVALID_RESET_MSG: string := "Token đặt lại mật khẩu không hợp lệ"
  const EXPIRED_RESET_MSG: string := "Token đặt lại mật khẩu đã hết hạn"
  const WRONG_PASSWORD_MSG: string := "Wrong old password"

  /** `{ success, message? }`, the body of the token endpoints' replies. */
  datatype Reply = Reply(success: bool, message: string)

  const VERIFIED_REPLY: Reply := Reply(true, "Email đã được xác thực thành công")
  const FORGOT_REPLY: Reply := Reply(true, "Nếu email tồn tại, bạn sẽ nhận được hướng dẫn đặt lại mật khẩu")
  const RESET_REPLY: Reply := Reply(true, "Mật khẩu đã được đặt lại thành công")
  const CHANGED_REPLY: Reply := Reply(true, "")

  /** `const { passwordHash, ...result } = user`: every column but the hash. */
  datatype SafeUser = SafeUser(
    id: Id,
    email: string,
    role: Role,
    isActive: bool,
    isEmailVerified: bool,
    emailVerificationToken: Option<string>,
    emailVerificationTokenExpiresAt: Option<Time>,
    passwordResetToken: Option<string>,
    passwordResetTokenExpiresAt: Option<Time>,
    createdAt: Time)

  function WithoutPassword(u: User): SafeUser {
    SafeUser(u.id, u.email, u.role, u.isActive, u.isEmailVerified,
             u.emailVerificationToken, u.emailVerificationTokenExpiresAt,
             u.passwordResetToken, u.passwordResetTokenExpiresAt, u.createdAt)
  }

  /** The account as a registrant may see it: no hash and no token columns. */
  datatype PublicUser = PublicUser(
    id: Id, email: string, role: Role, isActive: bool, isEmailVerified: bool, createdAt: Time)

  function PublicView(u: User): PublicUser {
    PublicUser(u.id, u.email, u.role, u.isActive, u.isEmailVerified, u.createdAt)
  }

  /** The JWT claims, standing for the signed token itself. */
  datatype JwtPayload = JwtPayload(email: string, sub: Id, role: Role)
  datatype LoginUser = LoginUser(id: Id, email: string, role: Role)
  datatype LoginResponse = LoginResponse(accessToken: JwtPayload, user: LoginUser)

  function EmailIndex(users: seq<User>, email: string): Option<nat> {
    FirstIndex(users, (u: User) => u.email == email)
  }

  function IdIndex(users: seq<User>, id: Id): Option<nat> {
    FirstIndex(users, (u: User) => u.id == id)
  }

  /** The lookup by verification token; users.service.ts shows no such finder, so the
      first row carrying the token is taken. */
  function VerificationTokenIndex(users: seq<User>, token: string): Option<nat> {
    FirstIndex(users, (u: User) => u.emailVerificationToken == Some(token))
  }

  function ResetTokenIndex(users: seq<User>, token: string): Option<nat> {
    FirstIndex(users, (u: User) => u.passwordResetToken == Some(token))
  }

  /** A token is expired when it has no expiry or its expiry lies strictly before now. */
  predicate Expired(expiresAt: Option<Time>, now: Time) {
    expiresAt.None? || expiresAt.value < now
  }

  /** validateUser: null for an unknown email or a wrong password, Unauthorized for an
      unverified account, otherwise the account without its hash. */
  function ValidateUser(users: seq<User>, email: string, password: string): (r: Response<Option<SafeUser>>)
    ensures (forall i :: 0 <= i < |users| ==> users[i].email != email) ==> r == Ok(None)
    ensures r.Err? ==> r.error == Unauthorized(UNVERIFIED_MSG)
    ensures r.Ok? && r.value.Some? ==>
      exists i :: 0 <= i < |users| && users[i].email == email && users[i].isEmailVerified
        && Compare(password, users[i].passwordHash) && r.value.value == WithoutPassword(users[i])
  {
    match EmailIndex(users, email)
    case None => Ok(None)
    case Some(i) =>
      if !Compare(password, users[i].passwordHash) then Ok(None)
      else if !users[i].isEmailVerified then Err(Unauthorized(UNVERIFIED_MSG))
      else Ok(Some(WithoutPassword(users[i])))
  }

  /** login: the token's claims and the returned user describe the same account. */
  function Login(u: SafeUser): (r: LoginResponse)
    ensures r.accessToken.sub == r.user.id == u.id
    ensures r.accessToken.email == r.user.email == u.email
    ensures r.accessToken.role == r.user.role == u.role
  {
    LoginResponse(JwtPayload(u.email, u.id, u.role), LoginUser(u.id, u.email, u.role))
  }

  /** The login endpoint: validateUser, Unauthorized when it returns null, then login. */
  function LoginFlow(users: seq<User>, email: string, password: string): Response<LoginResponse> {
    match ValidateUser(users, email, password)
    case Err(e) => Err(e)
    case Ok(None) => Err(Unauthorized(INVALID_CREDENTIALS_MSG))
    case Ok(Some(u)) => Ok(Login(u))
  }

  /** With unique emails, validateUser's outcome is decided by the account holding the email. */
  lemma ValidateUserCases(users: seq<User>, email: string, password: string, i: nat)
    requires UsersValid(users) && i < |users| && users[i].email == email
    ensures !Compare(password, users[i].passwordHash) ==> ValidateUser(users, email, password) == Ok(None)
    ensures Compare(password, users[i].passwordHash) && !users[i].isEmailVerified ==>
      ValidateUser(users, email, password) == Err(Unauthorized(UNVERIFIED_MSG))
    ensures Compare(password, users[i].passwordHash) && users[i].isEmailVerified ==>
      ValidateUser(users, email, password) == Ok(Some(WithoutPassword(users[i])))
  {
    EmailIndexUnique(users, email, i);
  }

  lemma EmailIndexUnique(users: seq<User>, email: string, i: nat)
    requires UsersValid(users) && i < |users| && users[i].email == email
    ensures EmailIndex(users, email) == Some(i)
  {
    assert ((u: User) => u.email == email)(users[i]);
    var k := EmailIndex(users, email).value;
    assert UserEmail(users[k]) == UserEmail(users[i]);
  }

  /** Login succeeds only for a verified account whose password matches, and the token names it. */
  lemma LoginRequiresVerifiedEmail(users: seq<User>, email: string, password: string)
    requires LoginFlow(users, email, password).Ok?
    ensures exists i :: (0 <= i < |users| && users[i].email == email && users[i].isEmailVerified
      && Compare(password, users[i].passwordHash)
      && LoginFlow(users, email, password).value.accessToken.sub == users[i].id)
  {
    var v := ValidateUser(users, email, password);
    var i :| 0 <= i < |users| && users[i].email == email && users[i].isEmailVerified
        && Compare(password, users[i].passwordHash) && v.value.value == WithoutPassword(users[i]);
    assert LoginFlow(users, email, password).value.accessToken.sub == users[i].id;
  }

  // ----- register -------------------------------------------------------------

  /** The row register leaves behind: a USER account, active, unverified, holding the
      verification token with its 24-hour expiry. */
  function NewUser(id: Id, email: string, password: string, token: string, now: Time): User {
    User(id, email, Hash(password), UserRole, true, false, Some(token),
         Some(now + VERIFICATION_TTL), None, None, now)
  }

  /** register on the users table: Conflict for a taken email, otherwise the new row
      appended; the reply omits the hash and the token. */
  function RegisterStep(users: seq<User>, id: Id, email: string, password: string, token: string, now: Time)
    : (r: (seq<User>, Response<PublicUser>))
    ensures (exists i :: 0 <= i < |users| && users[i].email == email) <==> r.1.Err?
    ensures r.1.Err? ==> r.1.error == Conflict(EMAIL_EXISTS_MSG) && r.0 == users
    ensures r.1.Ok? ==>
      && |r.0| == |users| + 1 && r.0[..|users|] == users
      && r.0[|users|].id == id && r.0[|users|].isActive
      && r.0[|users|].email == email && r.0[|users|].role == UserRole
      && !r.0[|users|].isEmailVerified && Compare(password, r.0[|users|].passwordHash)
      && r.0[|users|].emailVerificationToken == Some(token)
      && r.0[|users|].emailVerificationTokenExpiresAt == Some(now + 24 * HOUR_MS)
      && r.1.value.id == id && r.1.value.email == email
  {
    match EmailIndex(users, email)
    case Some(_) => (users, Err(Conflict(EMAIL_EXISTS_MSG)))
    case None =>
      var u := NewUser(id, email, password, token, now);
      assert (users + [u])[..|users|] == users;
      (users + [u], Ok(PublicView(u)))
  }

  /** register. `token` is the fresh random token; `mailDelivered` says whether the
      verification mail went out, and the outcome does not depend on it. */
  method Register(db: Database, email: string, password: string, token: string, now: Time,
                  mailDelivered: bool) returns (r: Response<PublicUser>)
    requires db.Valid()
    modifies db
    ensures db.Valid()
    ensures db.profiles == old(db.profiles) && db.cvs == old(db.cvs) && db.history == old(db.history)
    ensures (db.users, r) == RegisterStep(old(db.users), old(db.nextId), email, password, token, now)
  {
    var existing := EmailIndex(db.users, email);
    if existing.Some? {
      return Err(Conflict(EMAIL_EXISTS_MSG));
    }
    var id := db.NewId();
    var u := NewUser(id, email, password, token, now);
    RegisterKeepsValid(db.users, u);
    db.users := db.users + [u];
    // a failure to send the verification mail is logged and ignored
    r := Ok(PublicView(u));
  }

  lemma RegisterKeepsValid(users: seq<User>, u: User)
    requires UsersValid(users) && EmailIndex(users, u.email).None?
    requires forall i :: 0 <= i < |users| ==> users[i].id < u.id
    ensures UsersValid(users + [u])
  {
    var s := users + [u];
    forall i, j | 0 <= i < j < |s| ensures UserKey(s[i]) != UserKey(s[j]) && UserEmail(s[i]) != UserEmail(s[j]) {
      if j == |users| {
        assert !((v: User) => v.email == u.email)(users[i]);
      }
    }
  }

  /** A freshly registered account is refused at login, with the unverified message. */
  lemma RegisteredCannotLogIn(users: seq<User>, id: Id, email: string, password: string, token: string, now: Time)
    requires UsersValid(users) && forall i :: 0 <= i < |users| ==> users[i].id < id
    requires RegisterStep(users, id, email, password, token, now).1.Ok?
    ensures LoginFlow(RegisterStep(users, id, email, password, token, now).0, email, password)
      == Err(Unauthorized(UNVERIFIED_MSG))
  {
    var after := RegisterStep(users, id, email, password, token, now).0;
    RegisterKeepsValid(users, NewUser(id, email, password, token, now));
    ValidateUserCases(after, email, password, |users|);
  }

  /** The reply register builds as written, `const { passwordHash, ...result } = newUser`:
      every column but the hash, the verification token included. */
  function RegisterReplyAsWritten(u: User): SafeUser {
    WithoutPassword(u)
  }

  /** As written, the register reply hands the registrant the verification token, and that
      token verifies the account at once: owning the mailbox is never checked. */
  lemma RegisterReplyRevealsToken(users: seq<User>, id: Id, email: string, password: string,
                                  token: string, now: Time)
    requires forall i :: 0 <= i < |users| ==> users[i].emailVerificationToken != Some(token)
    requires RegisterStep(users, id, email, password, token, now).1.Ok?
    ensures var registered := RegisterStep(users, id, email, password, token, now).0;
      var leaked := RegisterReplyAsWritten(registered[|users|]).emailVerificationToken;
      && leaked == Some(token)
      && VerifyEmailStep(registered, leaked.value, now).1 == Ok(VERIFIED_REPLY)
  {
    var registered := RegisterStep(users, id, email, password, token, now).0;
    assert registered == users + [NewUser(id, email, password, token, now)];
    assert registered[|users|].emailVerificationToken == Some(token);
    assert VerificationTokenIndex(registered, token) == Some(|users|);
  }

  /** The reply Register returns does not depend on the verification token. */
  lemma RegisterReplyHidesToken(users: seq<User>, id: Id, email: string, password: string,
                                t1: string, t2: string, now: Time)
    ensures RegisterStep(users, id, email, password, t1, now).1 == RegisterStep(users, id, email, password, t2, now).1
  {
    if EmailIndex(users, email).None? {
      assert PublicView(NewUser(id, email, password, t1, now)) == PublicView(NewUser(id, email, password, t2, now));
    }
  }

  // ----- verifyEmail ----------------------------------------------------------

  function Verified(u: User): User {
    u.(isEmailVerified := true, emailVerificationToken := None, emailVerificationTokenExpiresAt := None)
  }

  /** verifyEmail on the users table. */
  function VerifyEmailStep(users: seq<User>, token: string, now: Time): (r: (seq<User>, Response<Reply>))
    ensures |r.0| == |users|
    ensures r.1.Err? ==> r.0 == users
    ensures VerificationTokenIndex(users, token).None? ==> r.1 == Err(BadRequest(INVALID_VERIFY_MSG))
    ensures r.1.Ok? <==>
      exists i :: 0 <= i < |users| && users[i].emailVerificationToken == Some(token)
        && !Expired(users[i].emailVerificationTokenExpiresAt, now)
        && VerificationTokenIndex(users, token) == Some(i)
    ensures forall i :: 0 <= i < |users| && VerificationTokenIndex(users, token) == Some(i) ==>
      Expired(users[i].emailVerificationTokenExpiresAt, now) ==> r.1 == Err(BadRequest(EXPIRED_VERIFY_MSG))
    ensures r.1.Ok? ==> (r.1.value == VERIFIED_REPLY &&
      exists i :: 0 <= i < |users| && users[i].emailVerificationToken == Some(token)
        && r.0 == users[i := Verified(users[i])])
  {
    match VerificationTokenIndex(users, token)
    case None => (users, Err(BadRequest(INVALID_VERIFY_MSG)))
    case Some(i) =>
      if Expired(users[i].emailVerificationTokenExpiresAt, now) then
        (users, Err(BadRequest(EXPIRED_VERIFY_MSG)))
      else
        (users[i := Verified(users[i])], Ok(VERIFIED_REPLY))
  }

  method VerifyEmail(db: Database, token: string, now: Time) returns (r: Response<Reply>)
    requires db.Valid()
    modifies db`users
    ensures db.Valid()
    ensures (db.users, r) == VerifyEmailStep(old(db.users), token, now)
  {
    var found := VerificationTokenIndex(db.users, token);
    if found.None? {
      return Err(BadRequest(INVALID_VERIFY_MSG));
    }
    var i := found.value;
    var u := db.users[i];
    if u.emailVerificationTokenExpiresAt.None? || u.emailVerificationTokenExpiresAt.value < now {
      return Err(BadRequest(EXPIRED_VERIFY_MSG));
    }
    u := u.(isEmailVerified := true);
    u := u.(emailVerificationToken := None, emailVerificationTokenExpiresAt := None);
    UserSaveKeepsValid(db.users, i, u, db.nextId);
    db.users := db.users[i := u];
    r := Ok(VERIFIED_REPLY);
  }

  /** The whole lifecycle: an account registered with a fresh token and verified with that
      token within 24 hours can log in with its password. */
  lemma RegisterVerifyLogin(users: seq<User>, id: Id, email: string, password: string, token: string,
                            now: Time, later: Time)
    requires UsersValid(users) && forall i :: 0 <= i < |users| ==> users[i].id < id
    requires forall i :: 0 <= i < |users| ==> users[i].emailVerificationToken != Some(token)
    requires RegisterStep(users, id, email, password, token, now).1.Ok?
    requires later <= now + VERIFICATION_TTL
    ensures var registered := RegisterStep(users, id, email, password, token, now).0;
      && VerifyEmailStep(registered, token, later).1 == Ok(VERIFIED_REPLY)
      && LoginFlow(VerifyEmailStep(registered, token, later).0, email, password).Ok?
  {
    var u := NewUser(id, email, password, token, now);
    var registered := users + [u];
    assert registered == RegisterStep(users, id, email, password, token, now).0;
    RegisterKeepsValid(users, u);
    VerifyRegistered(users, u, token, later);
    UserSaveKeepsValid(registered, |users|, Verified(u), id + 1);
    ValidateUserCases(registered[|users| := Verified(u)], email, password, |users|);
  }

  /** Verifying with the token of an account just appended, before it expires, verifies
      that account. */
  lemma VerifyRegistered(users: seq<User>, u: User, token: string, later: Time)
    requires forall i :: 0 <= i < |users| ==> users[i].emailVerificationToken != Some(token)
    requires u.emailVerificationToken == Some(token)
    requires !Expired(u.emailVerificationTokenExpiresAt, later)
    ensures VerifyEmailStep(users + [u], token, later) == ((users + [u])[|users| := Verified(u)], Ok(VERIFIED_REPLY))
  {
    var registered := users + [u];
    assert registered[|users|] == u;
    assert VerificationTokenIndex(registered, token) == Some(|users|);
  }

  // ----- forgotPassword / resetPassword ---------------------------------------

  function ResetRequested(u: User, token: string, now: Time): User {
    u.(passwordResetToken := Some(token), passwordResetTokenExpiresAt := Some(now + RESET_TTL))
  }

  /** forgotPassword: the same reply whether the email exists or not; an existing account
      receives the reset token, valid for one hour. */
  function ForgotPasswordStep(users: seq<User>, email: string, token: string, now: Time)
    : (r: (seq<User>, Response<Reply>))
    ensures r.1 == Ok(FORGOT_REPLY)
    ensures (forall i :: 0 <= i < |users| ==> users[i].email != email) ==> r.0 == users
    ensures |r.0| == |users|
    ensures forall i :: 0 <= i < |users| && users[i].email != email ==> r.0[i] == users[i]
    ensures forall i :: 0 <= i < |r.0| && r.0[i] != users[i] ==>
      r.0[i].passwordResetToken == Some(token) && r.0[i].passwordResetTokenExpiresAt == Some(now + HOUR_MS)
    ensures forall i :: 0 <= i < |users| && EmailIndex(users, email) == Some(i) ==>
      r.0 == users[i := ResetRequested(users[i], token, now)]
  {
    match EmailIndex(users, email)
    case None => (users, Ok(FORGOT_REPLY))
    case Some(i) => (users[i := ResetRequested(users[i], token, now)], Ok(FORGOT_REPLY))
  }

  /** forgotPassword. A mail that cannot be sent leaves the token assigned. */
  method ForgotPassword(db: Database, email: string, token: string, now: Time, mailDelivered: bool)
    returns (r: Response<Reply>)
    requires db.Valid()
    modifies db`users
    ensures db.Valid()
    ensures (db.users, r) == ForgotPasswordStep(old(db.users), email, token, now)
  {
    var found := EmailIndex(db.users, email);
    if found.None? {
      return Ok(FORGOT_REPLY);
    }
    var i := found.value;
    var u := db.users[i];
    u := u.(passwordResetToken := Some(token), passwordResetTokenExpiresAt := Some(now + RESET_TTL));
    UserSaveKeepsValid(db.users, i, u, db.nextId);
    db.users := db.users[i := u];
    // a failure to send the reset mail is logged and ignored
    r := Ok(FORGOT_REPLY);
  }

  /** Asking for a reset and then using the mailed token within the hour sets the new
      password, which then logs in in place of the old one. */
  lemma ForgotThenReset(users: seq<User>, email: string, token: string, now: Time,
                        newPassword: string, later: Time)
    requires exists k :: 0 <= k < |users| && users[k].email == email
    requires forall k :: 0 <= k < |users| ==> users[k].passwordResetToken != Some(token)
    requires later <= now + RESET_TTL
    ensures var asked := ForgotPasswordStep(users, email, token, now).0;
      var i := EmailIndex(users, email).value;
      var reset := ResetPasswordStep(asked, token, newPassword, later);
      && reset.1 == Ok(RESET_REPLY)
      && reset.0 == users[i := PasswordReset(ResetRequested(users[i], token, now), newPassword)]
      && Compare(newPassword, reset.0[i].passwordHash)
  {
    var i := EmailIndex(users, email).value;
    var asked := ForgotPasswordStep(users, email, token, now).0;
    assert asked == users[i := ResetRequested(users[i], token, now)];
    forall j | 0 <= j < i ensures asked[j].passwordResetToken != Some(token) {
    }
    assert ResetTokenIndex(asked, token) == Some(i);
  }

  function PasswordReset(u: User, newPassword: string): User {
    u.(passwordHash := Hash(newPassword), passwordResetToken := None, passwordResetTokenExpiresAt := None)
  }

  /** resetPassword on the users table. */
  function ResetPasswordStep(users: seq<User>, token: string, newPassword: string, now: Time)
    : (r: (seq<User>, Response<Reply>))
    ensures |r.0| == |users|
    ensures r.1.Err? ==> r.0 == users
    ensures ResetTokenIndex(users, token).None? ==> r.1 == Err(BadRequest(INVALID_RESET_MSG))
    ensures r.1.Ok? <==>
      exists i :: 0 <= i < |users| && users[i].passwordResetToken == Some(token)
        && !Expired(users[i].passwordResetTokenExpiresAt, now)
        && ResetTokenIndex(users, token) == Some(i)
    ensures forall i :: 0 <= i < |users| && ResetTokenIndex(users, token) == Some(i) ==>
      Expired(users[i].passwordResetTokenExpiresAt, now) ==> r.1 == Err(BadRequest(EXPIRED_RESET_MSG))
    ensures r.1.Ok? ==> (r.1.value == RESET_REPLY &&
      exists i :: 0 <= i < |users| && users[i].passwordResetToken == Some(token)
        && r.0 == users[i := PasswordReset(users[i], newPassword)])
  {
    match ResetTokenIndex(users, token)
    case None => (users, Err(BadRequest(INVALID_RESET_MSG)))
    case Some(i) =>
      if Expired(users[i].passwordResetTokenExpiresAt, now) then
        (users, Err(BadRequest(EXPIRED_RESET_MSG)))
      else
        (users[i := PasswordReset(users[i], newPassword)], Ok(RESET_REPLY))
  }

  method ResetPassword(db: Database, token: string, newPassword: string, now: Time)
    returns (r: Response<Reply>)
    requires db.Valid()
    modifies db`users
    ensures db.Valid()
    ensures (db.users, r) == ResetPasswordStep(old(db.users), token, newPassword, now)
  {
    var found := ResetTokenIndex(db.users, token);
    if found.None? {
      return Err(BadRequest(INVALID_RESET_MSG));
    }
    var i := found.value;
    var u := db.users[i];
    if u.passwordResetTokenExpiresAt.None? || u.passwordResetTokenExpiresAt.value < now {
      return Err(BadRequest(EXPIRED_RESET_MSG));
    }
    u := u.(passwordHash := Hash(newPassword));
    u := u.(passwordResetToken := None, passwordResetTokenExpiresAt := None);
    UserSaveKeepsValid(db.users, i, u, db.nextId);
    db.users := db.users[i := u];
    r := Ok(RESET_REPLY);
  }

  /** A reset token held by one account works once: the second use is rejected as invalid. */
  lemma ResetTokenSingleUse(users: seq<User>, token: string, p1: string, p2: string, t1: Time, t2: Time)
    requires forall i, j :: 0 <= i < j < |users| && users[i].passwordResetToken == Some(token) ==>
      users[j].passwordResetToken != Some(token)
    requires ResetPasswordStep(users, token, p1, t1).1.Ok?
    ensures var after := ResetPasswordStep(users, token, p1, t1).0;
      ResetPasswordStep(after, token, p2, t2).1 == Err(BadRequest(INVALID_RESET_MSG))
  {
    var i := ResetTokenIndex(users, token).value;
    var after := ResetPasswordStep(users, token, p1, t1).0;
    assert after == users[i := PasswordReset(users[i], p1)];
    forall j | 0 <= j < |after| ensures after[j].passwordResetToken != Some(token) {
      if j < i {
        assert !((u: User) => u.passwordResetToken == Some(token))(users[j]);
      }
    }
    assert ResetTokenIndex(after, token).None?;
  }

  /** After a successful reset the new password logs in, and the old one no longer does
      unless it equals the new one (a property of the injective stand-in for bcrypt). */
  lemma ResetReplacesPassword(users: seq<User>, token: string, oldPassword: string, newPassword: string,
                              now: Time)
    requires UsersValid(users)
    requires ResetPasswordStep(users, token, newPassword, now).1.Ok?
    ensures var i := ResetTokenIndex(users, token).value;
      var after := ResetPasswordStep(users, token, newPassword, now).0;
      && Compare(newPassword, after[i].passwordHash)
      && (oldPassword != newPassword ==> !Compare(oldPassword, after[i].passwordHash))
      && after[i].id == users[i].id && after[i].email == users[i].email
  {
    var i := ResetTokenIndex(users, token).value;
    var after := ResetPasswordStep(users, token, newPassword, now).0;
    assert after[i] == PasswordReset(users[i], newPassword);
    if oldPassword != newPassword && Compare(oldPassword, after[i].passwordHash) {
      HashInjective(oldPassword, newPassword);
    }
  }

  /** Different passwords have different hashes. */
  lemma HashInjective(p: string, q: string)
    requires Hash(p) == Hash(q)
    ensures p == q
  {
    var prefix := "$2b$10$";
    assert Hash(p)[|prefix|..] == p;
    assert Hash(q)[|prefix|..] == q;
  }

  // ----- changePassword -------------------------------------------------------

  /** changePassword on the users table. */
  function ChangePasswordStep(users: seq<User>, userId: Id, oldPassword: string, newPassword: string)
    : (r: (seq<User>, Response<Reply>))
    ensures |r.0| == |users|
    ensures r.1.Err? ==> r.0 == users
    ensures (forall i :: 0 <= i < |users| ==> users[i].id != userId) ==> r.1 == Err(Unauthorized(""))
    ensures forall i :: 0 <= i < |users| && IdIndex(users, userId) == Some(i) ==>
      && (r.1.Ok? <==> Compare(oldPassword, users[i].passwordHash))
      && (r.1.Err? ==> r.1.error == Unauthorized(WRONG_PASSWORD_MSG))
    ensures r.1.Ok? ==> (r.1.value == CHANGED_REPLY &&
      exists i :: 0 <= i < |users| && users[i].id == userId && Compare(oldPassword, users[i].passwordHash)
        && r.0 == users[i := users[i].(passwordHash := Hash(newPassword))])
  {
    match IdIndex(users, userId)
    case None => (users, Err(Unauthorized("")))
    case Some(i) =>
      if !Compare(oldPassword, users[i].passwordHash) then (users, Err(Unauthorized(WRONG_PASSWORD_MSG)))
      else (users[i := users[i].(passwordHash := Hash(newPassword))], Ok(CHANGED_REPLY))
  }

  method ChangePassword(db: Database, userId: Id, oldPassword: string, newPassword: string)
    returns (r: Response<Reply>)
    requires db.Valid()
    modifies db`users
    ensures db.Valid()
    ensures (db.users, r) == ChangePasswordStep(old(db.users), userId, oldPassword, newPassword)
  {
    var found := IdIndex(db.users, userId);
    if found.None? {
      return Err(Unauthorized(""));
    }
    var i := found.value;
    var u := db.users[i];
    if !Compare(oldPassword, u.passwordHash) {
      return Err(Unauthorized(WRONG_PASSWORD_MSG));
    }
    u := u.(passwordHash := Hash(newPassword));
    UserSaveKeepsValid(db.users, i, u, db.nextId);
    db.users := db.users[i := u];
    r := Ok(CHANGED_REPLY);
  }

  /** A wrong old password is refused and every hash stays as it was. */
  lemma WrongOldPasswordKeepsHash(users: seq<User>, i: nat, oldPassword: string, newPassword: string)
    requires UsersValid(users) && i < |users| && !Compare(oldPassword, users[i].passwordHash)
    ensures ChangePasswordStep(users, users[i].id, oldPassword, newPassword)
      == (users, Err(Unauthorized(WRONG_PASSWORD_MSG)))
  {
    assert ((u: User) => u.id == users[i].id)(users[i]);
    var k := IdIndex(users, users[i].id).value;
    assert UserKey(users[k]) == UserKey(users[i]);
  }

  /** The right old password replaces the account's hash with that of the new password, and
      leaves every other account alone. */
  lemma RightOldPasswordChangesHash(users: seq<User>, i: nat, oldPassword: string, newPassword: string)
    requires UsersValid(users) && i < |users| && Compare(oldPassword, users[i].passwordHash)
    ensures ChangePasswordStep(users, users[i].id, oldPassword, newPassword)
      == (users[i := users[i].(passwordHash := Hash(newPassword))], Ok(CHANGED_REPLY))
  {
    assert ((u: User) => u.id == users[i].id)(users[i]);
    var k := IdIndex(users, users[i].id).value;
    assert UserKey(users[k]) == UserKey(users[i]);
  }
}
