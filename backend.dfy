/** The server's MongoDB database as one mutable object: the users, doctors
    and appointments collections and the ObjectId generator. Each route
    handler is a method that follows the handler's own steps; its contract
    ties the response and the new collections to the route's function in
    `Appointments`, `Doctors` or `Auth`. */
module Backend {
  import opened Wrappers
  import opened Http
  import opened Identity
  import opened Seqs
  import opened DoctorSchema
  import opened AppointmentSchema
  import Appointments
  import Doctors
  import Auth

  class Store {
    var users: seq<User>
    var doctors: seq<Doctor>
    var appointments: seq<Appointment>
    /** The next ObjectId to hand out. */
    var nextId: Id

    /** Every stored id was handed out by the generator, the `_id` index
        keeps ids unique, and emails are unique. */
    predicate Valid()
      reads this
    {
      && (forall u | u in users :: u.id < nextId)
      && (forall d | d in doctors :: d.id < nextId)
      && (forall a | a in appointments :: a.id < nextId)
      && Doctors.UniqueIds(doctors)
      && Appointments.UniqueIds(appointments)
      && Auth.UniqueEmails(users)
    }

    constructor()
      ensures Valid()
      ensures users == [] && doctors == [] && appointments == [] && nextId == 0
    {
      users := [];
      doctors := [];
      appointments := [];
      nextId := 0;
    }

    // ------------------------------------------------ /api/appointments

    /** `GET /`: the query is built field by field, then run and sorted. */
    method ListAppointments(caller: User) returns (r: seq<Appointment>)
      ensures r == Appointments.List(appointments, doctors, caller)
      ensures SortedByDate(r)
    {
      var query := Appointments.Everything;
      if caller.role == PatientRole {
        query := Appointments.ByPatient(caller.id);
      } else if caller.role == DoctorRole {
        var doctor := Doctors.ProfileOf(doctors, caller.id);
        if doctor.Some? {
          query := Appointments.ByDoctor(doctor.value.id);
        }
      }
      r := SortByDate(Filter(appointments, Appointments.MatchesQuery(query)));
    }

    /** `GET /:id`. */
    method GetAppointment(caller: User, id: Id) returns (r: Outcome<Appointment>)
      ensures r == Appointments.Get(appointments, doctors, caller, id)
    {
      var found := Appointments.Locate(appointments, id);
      if found.None? {
        return Fail(NotFound);
      }
      var appointment := appointments[found.value];
      if caller.role == PatientRole && appointment.patient != caller.id {
        return Fail(Forbidden);
      }
      if caller.role == DoctorRole {
        var doctor := Doctors.ProfileOf(doctors, caller.id);
        if doctor.Some? && appointment.doctor != doctor.value.id {
          return Fail(Forbidden);
        }
      }
      return Ok(appointment);
    }

    /** `POST /`: the new record takes the next ObjectId. */
    method BookAppointment(caller: User, req: Appointments.BookingRequest) returns (r: Outcome<Appointment>)
      requires Valid()
      modifies this
      ensures Valid()
      ensures var step := Appointments.Book(old(appointments), doctors, caller, req, old(nextId));
        appointments == step.next && r == step.response
      ensures users == old(users) && doctors == old(doctors)
      ensures nextId == if r.Ok? then old(nextId) + 1 else old(nextId)
    {
      if Doctors.FindDoctor(doctors, req.doctorId).None? {
        return Fail(NotFound);
      }
      if Appointments.SlotTaken(appointments, Appointments.RequestedSlot(req)) {
        return Fail(SlotBooked);
      }
      var made := NewAppointment(nextId, caller.id, req.doctorId, req.appointmentDate, req.appointmentTime, req.reason);
      if made.Fail? {
        return Fail(made.error);
      }
      IdsBelowStayUnique(appointments, made.value);
      appointments := appointments + [made.value];
      nextId := nextId + 1;
      r := Ok(made.value);
    }

    /** `PUT /:id/status`: the record's status is overwritten in place. */
    method UpdateStatus(caller: User, id: Id, status: Status) returns (r: Outcome<Appointment>)
      requires Valid()
      modifies this
      ensures Valid()
      ensures var step := Appointments.SetStatus(old(appointments), doctors, caller, id, status);
        appointments == step.next && r == step.response
      ensures users == old(users) && doctors == old(doctors) && nextId == old(nextId)
    {
      ghost var step := Appointments.SetStatus(appointments, doctors, caller, id, status);
      var found := Appointments.Locate(appointments, id);
      if found.None? {
        return Fail(NotFound);
      }
      var k := found.value;
      var appointment := appointments[k];
      if caller.role == PatientRole && appointment.patient != caller.id {
        return Fail(Forbidden);
      }
      if caller.role == DoctorRole {
        var doctor := Doctors.ProfileOf(doctors, caller.id);
        if doctor.None? || appointment.doctor != doctor.value.id {
          return Fail(Forbidden);
        }
      }
      appointment := appointment.(status := status);
      appointments := appointments[k := appointment];
      r := Ok(appointment);
      assert appointments == step.next && r == step.response;
      forall a | a in appointments
        ensures a.id < nextId
      {
        var i :| 0 <= i < |appointments| && appointments[i] == a;
        assert a.id == old(appointments)[i].id && old(appointments)[i] in old(appointments);
      }
    }

    /** `DELETE /:id`: the record is removed outright. */
    method CancelAppointment(caller: User, id: Id) returns (r: Outcome<()>)
      requires Valid()
      modifies this
      ensures Valid()
      ensures var step := Appointments.Cancel(old(appointments), doctors, caller, id);
        appointments == step.next && r == step.response
      ensures users == old(users) && doctors == old(doctors) && nextId == old(nextId)
    {
      var found := Appointments.Locate(appointments, id);
      if found.None? {
        return Fail(NotFound);
      }
      var k := found.value;
      var appointment := appointments[k];
      if caller.role == PatientRole && appointment.patient != caller.id {
        return Fail(Forbidden);
      }
      if caller.role == DoctorRole {
        var doctor := Doctors.ProfileOf(doctors, caller.id);
        if doctor.None? || appointment.doctor != doctor.value.id {
          return Fail(Forbidden);
        }
      }
      RemovalKeepsIds(appointments, k);
      appointments := appointments[..k] + appointments[k + 1..];
      r := Ok(());
    }

    // ----------------------------------------------------- /api/doctors

    /** `GET /`: no filter for an absent or empty `specialization`. */
    method ListDoctors(specialization: Option<string>) returns (r: seq<Doctor>)
      ensures r == Doctors.List(doctors, specialization)
      ensures IsSubsequence(r, doctors)
    {
      var query := None;
      if specialization.Some? && specialization.value != "" {
        query := specialization;
      }
      r := Filter(doctors, Doctors.MatchingFilter(query));
      FilterAgrees(doctors, Doctors.MatchingFilter(query), Doctors.MatchingFilter(specialization));
    }

    /** `GET /:id`. */
    method GetDoctor(id: Id) returns (r: Outcome<Doctor>)
      ensures r == Doctors.Get(doctors, id)
    {
      var doctor := Doctors.FindDoctor(doctors, id);
      if doctor.None? {
        return Fail(NotFound);
      }
      return Ok(doctor.value);
    }

    /** `POST /`, behind `authorize('doctor')`. */
    method CreateDoctorProfile(caller: User, fields: ProfileFields) returns (r: Outcome<Doctor>)
      requires Valid()
      modifies this
      ensures Valid()
      ensures var step := Doctors.CreateProfile(old(doctors), caller, fields, old(nextId));
        doctors == step.next && r == step.response
      ensures users == old(users) && appointments == old(appointments)
      ensures nextId == if r.Ok? then old(nextId) + 1 else old(nextId)
    {
      if caller.role != DoctorRole {
        return Fail(Forbidden);
      }
      var existing := Doctors.ProfileOf(doctors, caller.id);
      if existing.Some? {
        return Fail(ProfileExists);
      }
      var made := NewDoctor(nextId, ProfileInput(caller.id, fields));
      if made.Fail? {
        return Fail(made.error);
      }
      ProfileIdsBelowStayUnique(doctors, made.value);
      doctors := doctors + [made.value];
      nextId := nextId + 1;
      r := Ok(made.value);
    }

    /** `PUT /:id`, behind `authorize('doctor')`: the caller's own profile is
        updated whatever the `:id`. */
    method UpdateDoctorProfile(caller: User, pathId: Id, patch: Doctors.ProfilePatch) returns (r: Outcome<Doctor>)
      requires Valid()
      modifies this
      ensures Valid()
      ensures var step := Doctors.UpdateProfile(old(doctors), caller, pathId, patch);
        doctors == step.next && r == step.response
      ensures users == old(users) && appointments == old(appointments) && nextId == old(nextId)
    {
      ghost var step := Doctors.UpdateProfile(doctors, caller, pathId, patch);
      if caller.role != DoctorRole {
        return Fail(Forbidden);
      }
      var doctor := Doctors.ProfileOf(doctors, caller.id);
      if doctor.None? {
        return Fail(NotFound);
      }
      if Doctors.PatchPaths(patch) != {} {
        return Fail(ValidationFailed(Doctors.PatchPaths(patch)));
      }
      var j := FirstIndex(doctors, Doctors.HasId(doctor.value.id));
      assert j.Some? by {
        var k :| 0 <= k < |doctors| && doctors[k] == doctor.value;
        assert Doctors.HasId(doctor.value.id)(doctors[k]);
      }
      PatchKeepsIds(doctors, j.value, patch, nextId);
      var updated := Doctors.ApplyPatch(doctors[j.value], patch);
      doctors := doctors[j.value := updated];
      r := Ok(updated);
      assert doctors == step.next && r == step.response;
    }

    /** `GET /:id/appointments`: no ownership check. */
    method DoctorAppointments(doctorId: Id) returns (r: seq<Appointment>)
      ensures r == Doctors.DoctorAppointments(appointments, doctorId)
      ensures forall a :: a in r <==> a in appointments && a.doctor == doctorId
    {
      r := SortByDate(Filter(appointments, Doctors.ForDoctor(doctorId)));
      assert forall a :: a in r <==> multiset(r)[a] > 0;
    }

    // -------------------------------------------------------- /api/auth

    /** `POST /register`: the user takes the next ObjectId and a doctor
        profile the one after it. */
    method Register(req: Auth.RegisterRequest, hash: string -> PasswordHash) returns (r: Outcome<Auth.Session>)
      requires Valid()
      modifies this
      ensures Valid()
      ensures var step := Auth.Register(Auth.Accounts(old(users), old(doctors)), req, hash, old(nextId), old(nextId) + 1);
        users == step.next.users && doctors == step.next.doctors && r == step.response
      ensures appointments == old(appointments)
      ensures nextId == if r == Fail(UserExists) then old(nextId) else old(nextId) + 2
    {
      ghost var step := Auth.Register(Auth.Accounts(users, doctors), req, hash, nextId, nextId + 1);
      if Auth.FindUserByEmail(users, req.email).Some? {
        return Fail(UserExists);
      }
      RegisterKeepsIds(Auth.Accounts(users, doctors), req, hash, nextId);
      var user := Auth.NewUser(req, hash, nextId);
      users := users + [user];
      var session := Auth.Session(Token(user.id), Summary(user));
      r := Ok(session);
      if req.role == Some(DoctorRole) {
        var made := NewDoctor(nextId + 1, ProfileInput(user.id, req.profile));
        if made.Fail? {
          r := Fail(made.error);
          assert made.error.ValidationFailed?;
        } else {
          doctors := doctors + [made.value];
        }
      }
      assert users == step.next.users && doctors == step.next.doctors && r == step.response;
      assert forall a | a in appointments :: a.id < nextId + 2;
      nextId := nextId + 2;
    }

    /** `POST /login`: reads only. */
    method Login(email: string, password: string, matches: (PasswordHash, string) -> bool)
      returns (r: Outcome<Auth.Session>)
      ensures r == Auth.Login(users, email, password, matches)
    {
      var user := Auth.FindUserByEmail(users, email);
      if user.None? {
        return Fail(InvalidCredentials);
      }
      if !matches(user.value.password, password) {
        return Fail(InvalidCredentials);
      }
      return Ok(Auth.Session(Token(user.value.id), Summary(user.value)));
    }
  }

  /** Registration with ids `n` and `n + 1` keeps every id below `n + 2`,
      profile ids unique and emails unique. */
  lemma RegisterKeepsIds(accts: Auth.Accounts, req: Auth.RegisterRequest, hash: string -> PasswordHash, n: Id)
    requires forall u | u in accts.users :: u.id < n
    requires forall d | d in accts.doctors :: d.id < n
    requires Doctors.UniqueIds(accts.doctors) && Auth.UniqueEmails(accts.users)
    ensures var next := Auth.Register(accts, req, hash, n, n + 1).next;
      && (forall u | u in next.users :: u.id < n + 2)
      && (forall d | d in next.doctors :: d.id < n + 2)
      && Doctors.UniqueIds(next.doctors) && Auth.UniqueEmails(next.users)
  {
    Auth.RegisterKeepsUniqueEmails(accts, req, hash, n, n + 1);
    var r := Auth.Register(accts, req, hash, n, n + 1);
    if |r.next.doctors| != |accts.doctors| {
      ProfileIdsBelowStayUnique(accts.doctors, r.next.doctors[|accts.doctors|]);
      assert r.next.doctors == accts.doctors + [r.next.doctors[|accts.doctors|]];
    }
  }

  /** Appending a record whose id is above every stored id keeps ids unique. */
  lemma IdsBelowStayUnique(appts: seq<Appointment>, a: Appointment)
    requires Appointments.UniqueIds(appts)
    requires forall b | b in appts :: b.id < a.id
    ensures Appointments.UniqueIds(appts + [a])
  {
    var next := appts + [a];
    forall i, j | 0 <= i < j < |next|
      ensures next[i].id != next[j].id
    {
      if j == |appts| {
        assert next[i] == appts[i] && appts[i] in appts;
      }
    }
  }

  lemma ProfileIdsBelowStayUnique(doctors: seq<Doctor>, d: Doctor)
    requires Doctors.UniqueIds(doctors)
    requires forall e | e in doctors :: e.id < d.id
    ensures Doctors.UniqueIds(doctors + [d])
  {
    var next := doctors + [d];
    forall i, j | 0 <= i < j < |next|
      ensures next[i].id != next[j].id
    {
      if j == |doctors| {
        assert next[i] == doctors[i] && doctors[i] in doctors;
      }
    }
  }

  /** Patching one profile keeps profile ids unique and below `n`. */
  lemma PatchKeepsIds(doctors: seq<Doctor>, k: nat, patch: Doctors.ProfilePatch, n: Id)
    requires k < |doctors|
    requires Doctors.UniqueIds(doctors)
    requires forall d | d in doctors :: d.id < n
    ensures var next := doctors[k := Doctors.ApplyPatch(doctors[k], patch)];
      Doctors.UniqueIds(next) && forall d | d in next :: d.id < n
  {
    var next := doctors[k := Doctors.ApplyPatch(doctors[k], patch)];
    assert forall i | 0 <= i < |next| :: next[i].id == doctors[i].id;
    forall d | d in next
      ensures d.id < n
    {
      var i :| 0 <= i < |next| && next[i] == d;
      assert doctors[i] in doctors;
    }
  }

  /** Removing one record keeps ids unique and loses no id bound. */
  lemma RemovalKeepsIds(appts: seq<Appointment>, k: nat)
    requires k < |appts|
    requires Appointments.UniqueIds(appts)
    ensures Appointments.UniqueIds(appts[..k] + appts[k + 1..])
    ensures forall a | a in appts[..k] + appts[k + 1..] :: a in appts
  {
    var next := appts[..k] + appts[k + 1..];
    forall i, j | 0 <= i < j < |next|
      ensures next[i].id != next[j].id
    {
      var i' := if i < k then i else i + 1;
      var j' := if j < k then j else j + 1;
      assert next[i] == appts[i'] && next[j] == appts[j'];
    }
    forall a | a in next
      ensures a in appts
    {
      var i :| 0 <= i < |next| && next[i] == a;
      var i' := if i < k then i else i + 1;
      assert appts[i'] == a;
    }
  }
}
