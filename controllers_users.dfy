/**
 * The account handlers (internal/controllers/users.go): the signup and login
 * checks and the mapping of the user service's errors to HTTP statuses.
 */
module UserHandlers {
  import opened Wrappers
  import opened Errors
  import opened Validator
  import opened Regex
  import opened UserModel
  import opened HttpUtil
  import opened UserService

  /** The password rules: 8 to 50 bytes, not blank, with a lower-case letter, an upper-case letter, a digit and one of `!@#$%^&*`. */
  predicate PasswordOk(p: string)
  {
    TextOk(p, 8, 50) && LowerRX(p) && UpperRX(p) && NumberRX(p) && SpecialRX(p)
  }

  function CheckPassword(v: Validator.Errors, p: string): (w: Validator.Errors)
    ensures w == if PasswordOk(p) then v else v + {"password"}
  {
    var v1 := CheckText(v, p, 8, 50, "password");
    var v2 := Check(v1, LowerRX(p), "password");
    var v3 := Check(v2, UpperRX(p), "password");
    var v4 := Check(v3, NumberRX(p), "password");
    Check(v4, SpecialRX(p), "password")
  }

  /** The email rules: not blank and matched by EmailRX. */
  predicate EmailOk(e: string)
  {
    ByteLen(TrimSpace(e)) > 0 && EmailRX(e)
  }

  function CheckEmail(v: Validator.Errors, e: string): (w: Validator.Errors)
    ensures w == if EmailOk(e) then v else v + {"email"}
  {
    var v1 := Check(v, ByteLen(TrimSpace(e)) > 0, "email");
    Check(v1, EmailRX(e), "email")
  }

  /** `SignupInput.Validate`. Any short role passes here; the service checks the role's value. */
  function ValidateSignup(input: SignupInput): (errs: Validator.Errors)
    ensures errs <= {"username", "name", "email", "role", "password"}
    ensures "username" in errs <==> !TextOk(input.username, 0, 50)
    ensures "name" in errs <==> !TextOk(input.name, 0, 50)
    ensures "email" in errs <==> !EmailOk(input.email)
    ensures "role" in errs <==> !TextOk(input.role, 0, 10)
    ensures "password" in errs <==> !PasswordOk(input.password)
  {
    var v0: Validator.Errors := {};
    var v1 := CheckText(v0, input.username, 0, 50, "username");
    var v2 := CheckText(v1, input.name, 0, 50, "name");
    var v3 := CheckEmail(v2, input.email);
    var v4 := CheckText(v3, input.role, 0, 10, "role");
    CheckPassword(v4, input.password)
  }

  /** `LoginInput.Validate`: the signup rules for the email and the password. */
  function ValidateLogin(email: string, password: string): (errs: Validator.Errors)
    ensures errs <= {"email", "password"}
    ensures "email" in errs <==> !EmailOk(email)
    ensures "password" in errs <==> !PasswordOk(password)
  {
    var v0: Validator.Errors := {};
    CheckPassword(CheckEmail(v0, email), password)
  }

  /** Login judges the email and the password exactly as signup does. */
  lemma LoginChecksAsSignup(input: SignupInput)
    ensures ValidateLogin(input.email, input.password) == ValidateSignup(input) * {"email", "password"}
  {
  }

  /** A password that passes has a character of each of the four classes. */
  lemma ValidPasswordClasses(p: string)
    requires PasswordOk(p)
    ensures 8 <= ByteLen(p) <= 50
    ensures exists i :: 0 <= i < |p| && 'a' <= p[i] <= 'z'
    ensures exists i :: 0 <= i < |p| && 'A' <= p[i] <= 'Z'
    ensures exists i :: 0 <= i < |p| && '0' <= p[i] <= '9'
    ensures exists i :: 0 <= i < |p| && p[i] in "!@#$%^&*"
  {
    CharClassPatternsMeaning(p);
  }

  /** A passing email is not empty, so it holds an `@`. */
  lemma ValidEmailHasAt(e: string)
    requires EmailOk(e)
    ensures '@' in e
  {
    EmailRXNeedsAt(e);
  }

  /** The signup handler's switch on the service's error. */
  function SignupStatus(err: Error): (status: int)
    ensures Is(err, InvalidUserRole) ==> status == StatusBadRequest
    ensures !Is(err, InvalidUserRole) && Is(err, ServiceDuplicate) ==> status == StatusConflict
    ensures status == StatusInternalServerError <==> !Is(err, InvalidUserRole) && !Is(err, ServiceDuplicate)
  {
    if Is(err, InvalidUserRole) then StatusBadRequest
    else if Is(err, ServiceDuplicate) then StatusConflict
    else StatusInternalServerError
  }

  /**
   * The signup handler: the checks, then the service. The write is the user the
   * service handed to the store; a session is opened on success.
   */
  function Signup(input: SignupInput, hashed: Result<PasswordHash, Error>, stored: Option<Error>): (r: Handled<User>)
    ensures ValidateSignup(input) != {} ==> r == Handled(StatusBadRequest, None)
    ensures ValidateSignup(input) == {} ==> r.write == UserService.Signup(input, hashed, stored).write
    ensures ValidateSignup(input) == {} ==> (r.status == StatusCreated <==> UserService.Signup(input, hashed, stored).result.Success?)
  {
    if ValidateSignup(input) != {} then Handled(StatusBadRequest, None)
    else
      var reply := UserService.Signup(input, hashed, stored);
      Handled(if reply.result.Success? then StatusCreated else SignupStatus(reply.result.error), reply.write)
  }

  /** End to end: an unknown role is a 400 on the role field, a taken username or email a 409. */
  lemma SignupRefusalStatuses(input: SignupInput, hashed: Result<PasswordHash, Error>, stored: Option<Error>)
    requires ValidateSignup(input) == {}
    ensures input.role !in Roles ==> Signup(input, hashed, stored) == Handled(StatusBadRequest, None)
    ensures input.role in Roles && hashed.Success? && stored.Some? && Is(stored.value, Duplicate) ==>
      Signup(input, hashed, stored).status == StatusConflict
  {
  }

  /** Nothing stops a visitor from signing up as an admin. */
  lemma SignupAsAdmin(input: SignupInput, hash: PasswordHash)
    requires ValidateSignup(input) == {} && input.role == "admin"
    ensures Signup(input, Success(hash), None).status == StatusCreated
    ensures Signup(input, Success(hash), None).write.value.role == "admin"
  {
  }

  /** The login handler's switch: an unknown email and a wrong password are both 403. */
  function LoginStatus(err: Error): (status: int)
    ensures status == StatusForbidden <==> Is(err, UserNotFound) || Is(err, IncorrectPassword)
    ensures status == StatusInternalServerError <==> !Is(err, UserNotFound) && !Is(err, IncorrectPassword)
  {
    if Is(err, UserNotFound) || Is(err, IncorrectPassword) then StatusForbidden
    else StatusInternalServerError
  }

  /**
   * The login handler: the checks, then the service. The write is the user id put
   * in the session cache.
   */
  function Login(email: string, password: string, found: Fetch<User>, matches: (PasswordHash, string) -> bool): (r: Handled<int>)
    ensures ValidateLogin(email, password) != {} ==> r == Handled(StatusBadRequest, None)
    ensures r.status == StatusOK <==> ValidateLogin(email, password) == {} && UserService.Login(password, found, matches).Success?
    ensures r.write.Some? <==> r.status == StatusOK
    ensures r.write.Some? ==> r.write.value == found.value.id
  {
    if ValidateLogin(email, password) != {} then Handled(StatusBadRequest, None)
    else
      match UserService.Login(password, found, matches)
      case Success(user) => Handled(StatusOK, Some(user.id))
      case Failure(err) => Handled(LoginStatus(err), None)
  }

  /** End to end: an unknown email and a wrong password get the same status. */
  lemma LoginRefusalsAlike(email: string, password: string, err: Error, user: User,
                           matches: (PasswordHash, string) -> bool)
    requires ValidateLogin(email, password) == {} && Is(err, NotFound) && !matches(user.password, password)
    ensures Login(email, password, FetchFailed(err), matches).status == StatusForbidden
    ensures Login(email, password, Fetched(user), matches).status == StatusForbidden
  {
  }
}
