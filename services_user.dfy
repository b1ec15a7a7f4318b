/** The user service (internal/services/user_service.go): signup and login. */
module UserService {
  import opened Wrappers
  import opened Errors
  import opened UserModel
  import opened ServiceCommon

  datatype SignupInput = SignupInput(username: string, email: string, name: string, role: string, password: string)

  const Roles: seq<string> := ["customer", "admin", "manager"]

  /**
   * `UserService.Signup`. `hashed` is what `models.NewPassword` gives for the password
   * and `stored` the store's answer to the insert.
   */
  function Signup(input: SignupInput, hashed: Result<PasswordHash, Error>, stored: Option<Error>): (r: Reply<User, User>)
    ensures input.role !in Roles ==> r.write.None? && r.result.Failure? && Is(r.result.error, InvalidUserRole)
    ensures r.write.Some? <==> input.role in Roles && hashed.Success?
    ensures input.role in Roles && hashed.Failure? ==> r.result == Failure(hashed.error)
    ensures r.write.Some? ==> (r.write.value == User(0, input.username, input.name, input.email, input.role, hashed.value)
      && r.result == (if stored.None? then Success(r.write.value) else Failure(Classify(stored.value, Duplicate, ServiceDuplicate))))
  {
    if input.role !in Roles then Reply(Failure(Wrapped(InvalidUserRole, "valid roles are customer, admin, manager")), None)
    else if hashed.Failure? then Reply(Failure(hashed.error), None)
    else
      var user := User(0, input.username, input.name, input.email, input.role, hashed.value);
      if stored.Some? then Reply(Failure(Classify(stored.value, Duplicate, ServiceDuplicate)), Some(user))
      else Reply(Success(user), Some(user))
  }

  /** Every user signup stores has one of the three roles. */
  lemma StoredRoleIsValid(input: SignupInput, hashed: Result<PasswordHash, Error>, stored: Option<Error>)
    ensures Signup(input, hashed, stored).write.Some? ==> Signup(input, hashed, stored).write.value.role in {"customer", "admin", "manager"}
  {
  }

  /**
   * `UserService.Login`. `found` is the lookup by email and `matches(hash, password)`
   * stands for the bcrypt comparison.
   */
  function Login(password: string, found: Fetch<User>, matches: (PasswordHash, string) -> bool): (r: Result<User, Error>)
    ensures found.FetchFailed? ==> r == Failure(Classify(found.err, NotFound, UserNotFound))
    ensures found.Fetched? && !matches(found.value.password, password) ==> r == Failure(IncorrectPassword)
    ensures r.Success? <==> found.Fetched? && matches(found.value.password, password)
    ensures r.Success? ==> r.value == found.value
  {
    match found
    case FetchFailed(err) => Failure(Classify(err, NotFound, UserNotFound))
    case Fetched(user) => if !matches(user.password, password) then Failure(IncorrectPassword) else Success(user)
  }

  /** Without a user for the email, login fails whatever the password comparison would say. */
  lemma LoginFailsWithoutUser(password: string, err: Error, matches: (PasswordHash, string) -> bool)
    ensures Login(password, FetchFailed(err), matches).Failure?
    ensures Is(err, NotFound) ==> Login(password, FetchFailed(err), matches) == Failure(UserNotFound)
  {
  }
}
