/** The user record the services and controllers read (internal/models/user.go). */
module UserModel {

  /** The stored bcrypt hash; hashing and comparison are not modelled. */
  type PasswordHash = seq<int>

  datatype User = User(id: int, username: string, name: string, email: string, role: string, password: PasswordHash)
}
