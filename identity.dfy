/** Registered users as the handlers see them. The User schema itself is not
    part of this model; only the fields the handlers read or write are. */
module Identity {
  import opened Wrappers

  /** A MongoDB ObjectId; compared by identity. */
  type Id = nat

  datatype Role = PatientRole | DoctorRole

  /** The stored (hashed) password; the hash itself is a parameter of the
      operations that need it. */
  datatype PasswordHash = PasswordHash(digest: string)

  datatype User = User(
    id: Id,
    name: string,
    email: string,
    password: PasswordHash,
    phone: string,
    role: Role,
    dateOfBirth: Option<int>,
    gender: Option<string>)

  /** The `user` object of the register and login responses: it has no
      password field, so no response can carry the password. */
  datatype UserSummary = UserSummary(id: Id, name: string, email: string, role: Role)

  /** A signed JWT whose payload is `{ userId }`; the secret and the 7-day
      expiry are not modelled. */
  datatype Token = Token(userId: Id)

  function Summary(u: User): UserSummary
  {
    UserSummary(u.id, u.name, u.email, u.role)
  }
}
