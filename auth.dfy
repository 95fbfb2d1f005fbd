/** Registration and login over the user store. Password hashing and
    `comparePassword` are parameters; the token is the payload it signs. */
module Auth {
  import opened Wrappers
  import opened Http
  import opened Identity
  import opened Seqs
  import opened DoctorSchema

  datatype RegisterRequest = RegisterRequest(
    name: string,
    email: string,
    password: string,
    phone: string,
    role: Option<Role>,
    dateOfBirth: Option<int>,
    gender: Option<string>,
    profile: ProfileFields)

  /** The two collections registration writes. */
  datatype Accounts = Accounts(users: seq<User>, doctors: seq<Doctor>)

  /** The body of a successful register or login response. */
  datatype Session = Session(token: Token, user: UserSummary)

  function HasEmail(email: string): User -> bool
  {
    (u: User) => u.email == email
  }

  /** `User.findOne({ email })`. */
  function FindUserByEmail(users: seq<User>, email: string): (r: Option<User>)
    ensures r.None? <==> forall u | u in users :: u.email != email
    ensures r.Some? ==> r.value in users && r.value.email == email
  {
    match FirstIndex(users, HasEmail(email))
    case None => None
    case Some(k) => Some(users[k])
  }

  predicate UniqueEmails(users: seq<User>)
  {
    forall i, j :: 0 <= i < j < |users| ==> users[i].email != users[j].email
  }

  /** The user document registration saves; the role defaults to patient. */
  function NewUser(req: RegisterRequest, hash: string -> PasswordHash, id: Id): (u: User)
    ensures u.id == id && u.password == hash(req.password)
    ensures u.role == PatientRole <==> req.role != Some(DoctorRole)
    ensures Summary(u) == UserSummary(id, req.name, req.email, u.role)
  {
    assert req.role.Some? ==> req.role.value.PatientRole? || req.role.value.DoctorRole?;
    User(id, req.name, req.email, hash(req.password), req.phone, req.role.GetOr(PatientRole),
         req.dateOfBirth, req.gender)
  }

  /** `POST /auth/register`: refuse a known email; otherwise save the user,
      then, for a doctor sign-up, a profile built from the request's profile
      fields. The user is saved before the profile is validated, so a doctor
      sign-up with missing profile fields fails with the user already
      stored. */
  function Register(accts: Accounts, req: RegisterRequest, hash: string -> PasswordHash, userId: Id, doctorId: Id)
    : (r: Step<Accounts, Session>)
    ensures r.response == Fail(UserExists) <==> exists u :: u in accts.users && u.email == req.email
    ensures r.response == Fail(UserExists) ==> r.next == accts
    ensures r.response != Fail(UserExists) ==> r.next.users == accts.users + [NewUser(req, hash, userId)]
    ensures r.response.Ok? ==> r.response.value == Session(Token(userId), Summary(NewUser(req, hash, userId)))
    ensures r.response.Fail? && r.response != Fail(UserExists) ==>
      req.role == Some(DoctorRole) && r.next.doctors == accts.doctors &&
      r.response.error == ValidationFailed(MissingPaths(ProfileInput(userId, req.profile))) &&
      MissingPaths(ProfileInput(userId, req.profile)) != {}
    ensures r.response.Ok? <==>
      (forall u | u in accts.users :: u.email != req.email) &&
      (req.role == Some(DoctorRole) ==> MissingPaths(ProfileInput(userId, req.profile)) == {})
  {
    if FindUserByEmail(accts.users, req.email).Some? then Step(accts, Fail(UserExists))
    else
      var user := NewUser(req, hash, userId);
      var users := accts.users + [user];
      var session := Session(Token(userId), Summary(user));
      if req.role == Some(DoctorRole) then
        match NewDoctor(doctorId, ProfileInput(userId, req.profile))
        case Fail(e) => Step(Accounts(users, accts.doctors), Fail(e))
        case Ok(d) => Step(Accounts(users, accts.doctors + [d]), Ok(session))
      else
        Step(Accounts(users, accts.doctors), Ok(session))
  }

  /** The stored role is the one requested, or patient when none is given. */
  lemma RegisterRole(accts: Accounts, req: RegisterRequest, hash: string -> PasswordHash, userId: Id, doctorId: Id)
    requires Register(accts, req, hash, userId, doctorId).response != Fail(UserExists)
    ensures var users := Register(accts, req, hash, userId, doctorId).next.users;
      |users| == |accts.users| + 1 &&
      users[|accts.users|].role == (if req.role == Some(DoctorRole) then DoctorRole else PatientRole) &&
      users[|accts.users|].id == userId && users[|accts.users|].email == req.email
  {
  }

  /** A successful doctor sign-up adds exactly one profile, owned by the new
      user and carrying the request's profile fields with rating 0; any other
      sign-up adds none. */
  lemma RegisterPairsDoctorProfile(accts: Accounts, req: RegisterRequest, hash: string -> PasswordHash, userId: Id, doctorId: Id)
    requires Register(accts, req, hash, userId, doctorId).response.Ok?
    ensures var next := Register(accts, req, hash, userId, doctorId).next;
      req.role != Some(DoctorRole) ==> next.doctors == accts.doctors
    ensures var next := Register(accts, req, hash, userId, doctorId).next;
      req.role == Some(DoctorRole) ==>
        |next.doctors| == |accts.doctors| + 1 && next.doctors[..|accts.doctors|] == accts.doctors &&
        var d := next.doctors[|accts.doctors|];
        && d.id == doctorId && d.user == userId
        && Some(d.specialization) == req.profile.specialization && Some(d.experience) == req.profile.experience
        && Some(d.education) == req.profile.education && Some(d.consultationFee) == req.profile.consultationFee
        && d.rating == 0 && d.totalReviews == 0
  {
    if req.role == Some(DoctorRole) {
      ProfileDefaults(doctorId, userId, req.profile);
    }
  }

  /** A doctor sign-up with a missing profile field is answered with a server
      error, yet the user it saved first stays registered without a profile. */
  lemma RegisterLeavesUserWithoutProfile(accts: Accounts, req: RegisterRequest, hash: string -> PasswordHash, userId: Id, doctorId: Id)
    requires forall u | u in accts.users :: u.email != req.email
    requires req.role == Some(DoctorRole)
    requires !PresentText(req.profile.specialization) || req.profile.experience.None? ||
             !PresentText(req.profile.education) || req.profile.consultationFee.None?
    ensures var r := Register(accts, req, hash, userId, doctorId);
      && r.response.Fail?
      && StatusCode(r.response.error) == 500
      && r.next.users == accts.users + [NewUser(req, hash, userId)]
      && r.next.doctors == accts.doctors
  {
    RequiredFields(doctorId, ProfileInput(userId, req.profile));
  }

  /** Registration keeps emails unique. */
  lemma RegisterKeepsUniqueEmails(accts: Accounts, req: RegisterRequest, hash: string -> PasswordHash, userId: Id, doctorId: Id)
    requires UniqueEmails(accts.users)
    ensures UniqueEmails(Register(accts, req, hash, userId, doctorId).next.users)
  {
    var r := Register(accts, req, hash, userId, doctorId);
    if r.response != Fail(UserExists) {
      var users := r.next.users;
      forall i, j | 0 <= i < j < |users|
        ensures users[i].email != users[j].email
      {
        if j == |accts.users| {
          assert users[i] == accts.users[i] && accts.users[i] in accts.users;
        }
      }
    }
  }

  /** `POST /auth/login`: an unknown email and a wrong password give the same
      error; success answers with the stored user's summary and a token for
      that user. */
  function Login(users: seq<User>, email: string, password: string, matches: (PasswordHash, string) -> bool)
    : (r: Outcome<Session>)
    ensures r.Ok? || r == Fail(InvalidCredentials)
    ensures r.Ok? ==> exists u :: u in users && u.email == email && matches(u.password, password) &&
                                  r.value == Session(Token(u.id), Summary(u))
  {
    match FindUserByEmail(users, email)
    case None => Fail(InvalidCredentials)
    case Some(u) =>
      if !matches(u.password, password) then Fail(InvalidCredentials)
      else Ok(Session(Token(u.id), Summary(u)))
  }

  /** With unique emails, login succeeds exactly for the stored user with that
      email whose password matches, and fails identically in both other
      cases. */
  lemma LoginOutcomes(users: seq<User>, email: string, password: string, matches: (PasswordHash, string) -> bool)
    requires UniqueEmails(users)
    ensures (forall u | u in users :: u.email != email) ==>
      Login(users, email, password, matches) == Fail(InvalidCredentials)
    ensures forall u | u in users && u.email == email ::
      Login(users, email, password, matches) ==
        if matches(u.password, password) then Ok(Session(Token(u.id), Summary(u))) else Fail(InvalidCredentials)
  {
    forall u | u in users && u.email == email
      ensures FindUserByEmail(users, email) == Some(u)
    {
      var v := FindUserByEmail(users, email).value;
      var i :| 0 <= i < |users| && users[i] == u;
      var j :| 0 <= j < |users| && users[j] == v;
      assert users[i].email == users[j].email;
    }
  }

  /** The responses never carry the password: changing it leaves the summary
      unchanged. */
  lemma SummaryOmitsPassword(u: User, other: PasswordHash)
    ensures Summary(u.(password := other)) == Summary(u)
    ensures Summary(u).id == u.id && Summary(u).name == u.name && Summary(u).email == u.email &&
            Summary(u).role == u.role
  {
  }

  /** Registering and then logging in with the same email and password
      answers with the same session, provided the password matches its own
      hash. */
  lemma RegisterThenLogin(accts: Accounts, req: RegisterRequest, hash: string -> PasswordHash,
                          matches: (PasswordHash, string) -> bool, userId: Id, doctorId: Id)
    requires UniqueEmails(accts.users)
    requires matches(hash(req.password), req.password)
    requires Register(accts, req, hash, userId, doctorId).response.Ok?
    ensures var r := Register(accts, req, hash, userId, doctorId);
      Login(r.next.users, req.email, req.password, matches) == r.response
  {
    var r := Register(accts, req, hash, userId, doctorId);
    RegisterKeepsUniqueEmails(accts, req, hash, userId, doctorId);
    var u := NewUser(req, hash, userId);
    assert r.next.users[|accts.users|] == u;
    LoginOutcomes(r.next.users, req.email, req.password, matches);
  }
}
