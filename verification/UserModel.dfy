/** The persisted user entity. */
module UserModel {
  import opened Common

  /** bcrypt as an ideal oracle: a hash remembers the password it was made from, and its salt. */
  datatype PasswordHash = Hash(password: string, salt: nat)

  datatype User = User(
    id: Uuid,
    email: string,
    name: string,
    passwordHash: PasswordHash,
    profileImage: Option<string>,
    role: string,
    refreshVersion: int,
    lastLoginAt: Option<Time>,
    lastPasswordHash: Option<string>,
    createdAt: Time,
    updatedAt: Time,
    deletedAt: Option<Time>)

  /** NULL has no place in the string that the row's `last_password_hash` is read into: reading such a row fails. */
  predicate Readable(u: User) {
    u.lastPasswordHash.Some?
  }
}
