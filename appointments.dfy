/** The booking ledger: the five appointment routes as functions from the
    collections they read to the new appointment collection and the response. */
module Appointments {
  import opened Wrappers
  import opened Http
  import opened Identity
  import opened Seqs
  import opened DoctorSchema
  import opened AppointmentSchema
  import Doctors

  function HasId(id: Id): Appointment -> bool
  {
    (a: Appointment) => a.id == id
  }

  /** `Appointment.findById(id)`: the position of the record, if any. */
  function Locate(appts: seq<Appointment>, id: Id): Option<nat>
  {
    FirstIndex(appts, HasId(id))
  }

  /** MongoDB's unique index on `_id`. */
  predicate UniqueIds(appts: seq<Appointment>)
  {
    forall i, j :: 0 <= i < j < |appts| ==> appts[i].id != appts[j].id
  }

  /** With unique ids, `findById` finds the one record that has the id. */
  lemma LocateUnique(appts: seq<Appointment>, a: Appointment)
    requires UniqueIds(appts) && a in appts
    ensures Locate(appts, a.id).Some?
    ensures appts[Locate(appts, a.id).value] == a
  {
    var i :| 0 <= i < |appts| && appts[i] == a;
    assert HasId(a.id)(appts[i]);
    var k := Locate(appts, a.id).value;
    assert appts[k].id == appts[i].id;
  }

  // ---------------------------------------------------------------- slots

  /** A (doctor, date, time) triple that holds at most one active booking. */
  datatype Slot = Slot(doctor: Id, date: int, time: string)

  function SlotOf(a: Appointment): Slot
  {
    Slot(a.doctor, a.appointmentDate, a.appointmentTime)
  }

  /** Pending and confirmed bookings occupy their slot; cancelled and
      completed ones do not. */
  predicate IsActive(s: Status)
  {
    s == Pending || s == Confirmed
  }

  predicate Occupies(a: Appointment, slot: Slot)
  {
    IsActive(a.status) && SlotOf(a) == slot
  }

  /** The `findOne({ doctor, appointmentDate, appointmentTime, status: { $in:
      ['pending', 'confirmed'] } })` of the booking route finds something. */
  predicate SlotTaken(appts: seq<Appointment>, slot: Slot): (b: bool)
    ensures b <==> exists a :: a in appts && IsActive(a.status) && SlotOf(a) == slot
  {
    exists i :: 0 <= i < |appts| && Occupies(appts[i], slot)
  }

  /** At most one active booking per slot. */
  predicate SingleBooking(appts: seq<Appointment>)
  {
    forall i, j :: 0 <= i < j < |appts| && IsActive(appts[i].status) && IsActive(appts[j].status) ==>
      SlotOf(appts[i]) != SlotOf(appts[j])
  }

  // ---------------------------------------------------------------- access

  /** The read check of `GET /:id`: a patient must own the record; a doctor
      with a profile must be its doctor; a doctor without a profile passes. */
  predicate MayRead(caller: User, profile: Option<Doctor>, a: Appointment): (b: bool)
    ensures caller.role == PatientRole ==> (b <==> a.patient == caller.id)
    ensures caller.role == DoctorRole ==> (b <==> profile.None? || a.doctor == profile.value.id)
  {
    && (caller.role == PatientRole ==> a.patient == caller.id)
    && (caller.role == DoctorRole && profile.Some? ==> a.doctor == profile.value.id)
  }

  /** The check of the status and delete routes: a doctor without a profile
      is refused. */
  predicate MayModify(caller: User, profile: Option<Doctor>, a: Appointment): (b: bool)
    ensures caller.role == PatientRole ==> (b <==> a.patient == caller.id)
    ensures caller.role == DoctorRole ==> (b <==> profile.Some? && a.doctor == profile.value.id)
  {
    && (caller.role == PatientRole ==> a.patient == caller.id)
    && (caller.role == DoctorRole ==> profile.Some? && a.doctor == profile.value.id)
  }

  /** The two checks differ in exactly one case: a doctor with no profile may
      read every record and modify none. */
  lemma ReadAndModifyChecks(caller: User, profile: Option<Doctor>, a: Appointment)
    ensures MayModify(caller, profile, a) ==> MayRead(caller, profile, a)
    ensures MayRead(caller, profile, a) && !MayModify(caller, profile, a) <==>
      caller.role == DoctorRole && profile.None?
  {
  }

  // ---------------------------------------------------------------- GET /

  datatype Query = Everything | ByPatient(patient: Id) | ByDoctor(doctor: Id)

  /** The query object: a patient's own records, a doctor's profile's
      records, or no condition at all for a doctor without a profile. */
  function ListQuery(caller: User, profile: Option<Doctor>): (q: Query)
    ensures q == Everything <==> caller.role == DoctorRole && profile.None?
    ensures caller.role == PatientRole ==> q == ByPatient(caller.id)
    ensures caller.role == DoctorRole && profile.Some? ==> q == ByDoctor(profile.value.id)
  {
    if caller.role == PatientRole then ByPatient(caller.id)
    else if profile.Some? then ByDoctor(profile.value.id)
    else assert caller.role.DoctorRole?; Everything
  }

  predicate Matches(q: Query, a: Appointment)
  {
    match q
    case Everything => true
    case ByPatient(p) => a.patient == p
    case ByDoctor(d) => a.doctor == d
  }

  function MatchesQuery(q: Query): Appointment -> bool
  {
    (a: Appointment) => Matches(q, a)
  }

  /** `Appointment.find(query).sort({ appointmentDate: 1 })`. */
  function List(appts: seq<Appointment>, doctors: seq<Doctor>, caller: User): (r: seq<Appointment>)
    ensures SortedByDate(r)
    ensures var q := ListQuery(caller, Doctors.ProfileOf(doctors, caller.id));
      forall a :: multiset(r)[a] == if Matches(q, a) then multiset(appts)[a] else 0
  {
    SortByDate(Filter(appts, MatchesQuery(ListQuery(caller, Doctors.ProfileOf(doctors, caller.id)))))
  }

  /** Who sees what: a patient exactly their own records, a doctor with a
      profile exactly that profile's records, and a doctor without a profile
      every record. */
  lemma ListScope(appts: seq<Appointment>, doctors: seq<Doctor>, caller: User, a: Appointment)
    ensures caller.role == PatientRole ==>
      multiset(List(appts, doctors, caller))[a] == if a.patient == caller.id then multiset(appts)[a] else 0
    ensures caller.role == DoctorRole && Doctors.ProfileOf(doctors, caller.id).Some? ==>
      multiset(List(appts, doctors, caller))[a] ==
        if a.doctor == Doctors.ProfileOf(doctors, caller.id).value.id then multiset(appts)[a] else 0
    ensures caller.role == DoctorRole && Doctors.ProfileOf(doctors, caller.id).None? ==>
      multiset(List(appts, doctors, caller)) == multiset(appts)
  {
    var r := List(appts, doctors, caller);
    if caller.role == DoctorRole && Doctors.ProfileOf(doctors, caller.id).None? {
      assert forall x :: multiset(r)[x] == multiset(appts)[x];
    }
  }

  // ------------------------------------------------------------- GET /:id

  function Get(appts: seq<Appointment>, doctors: seq<Doctor>, caller: User, id: Id): (r: Outcome<Appointment>)
    ensures r.Ok? || r == Fail(NotFound) || r == Fail(Forbidden)
    ensures r == Fail(NotFound) <==> forall a | a in appts :: a.id != id
    ensures r.Ok? ==> r.value in appts && r.value.id == id
    ensures Locate(appts, id).Some? ==>
      (r.Ok? <==> MayRead(caller, Doctors.ProfileOf(doctors, caller.id), appts[Locate(appts, id).value]))
  {
    match Locate(appts, id)
    case None => Fail(NotFound)
    case Some(k) =>
      if MayRead(caller, Doctors.ProfileOf(doctors, caller.id), appts[k]) then Ok(appts[k])
      else Fail(Forbidden)
  }

  // ---------------------------------------------------------------- POST /

  datatype BookingRequest = BookingRequest(
    doctorId: Id,
    appointmentDate: int,
    appointmentTime: string,
    reason: string)

  function RequestedSlot(req: BookingRequest): Slot
  {
    Slot(req.doctorId, req.appointmentDate, req.appointmentTime)
  }

  /** The doctor must exist, the slot must be free, and the record must pass
      validation; the caller, whatever their role, becomes the patient. */
  function Book(appts: seq<Appointment>, doctors: seq<Doctor>, caller: User, req: BookingRequest, freshId: Id)
    : (r: Step<seq<Appointment>, Appointment>)
    ensures r.response.Fail? ==> r.next == appts
    ensures r.response.Ok? || r.response == Fail(NotFound) || r.response == Fail(SlotBooked) ||
            r.response == Fail(ValidationFailed({Field("reason")}))
    ensures r.response.Ok? ==> r.next == appts + [r.response.value]
    ensures r.response.Ok? ==>
      r.response.value == Appointment(freshId, caller.id, req.doctorId, req.appointmentDate,
                                      req.appointmentTime, req.reason, Pending)
  {
    if Doctors.FindDoctor(doctors, req.doctorId).None? then Step(appts, Fail(NotFound))
    else if SlotTaken(appts, RequestedSlot(req)) then Step(appts, Fail(SlotBooked))
    else
      match NewAppointment(freshId, caller.id, req.doctorId, req.appointmentDate, req.appointmentTime, req.reason)
      case Fail(e) => Step(appts, Fail(e))
      case Ok(a) => Step(appts + [a], Ok(a))
  }

  /** The booking outcomes, in the source's terms: NotFound exactly when no
      profile has the id; SlotBooked exactly when the doctor exists and a
      pending or confirmed record has the same doctor, date and time
      (cancelled and completed records never block); success exactly when
      neither holds and a reason is given. */
  lemma BookOutcomes(appts: seq<Appointment>, doctors: seq<Doctor>, caller: User, req: BookingRequest, freshId: Id)
    ensures var r := Book(appts, doctors, caller, req, freshId);
      r.response == Fail(NotFound) <==> forall d | d in doctors :: d.id != req.doctorId
    ensures var r := Book(appts, doctors, caller, req, freshId);
      r.response == Fail(SlotBooked) <==>
        (exists d :: d in doctors && d.id == req.doctorId) &&
        exists a :: a in appts && a.doctor == req.doctorId && a.appointmentDate == req.appointmentDate &&
          a.appointmentTime == req.appointmentTime && (a.status == Pending || a.status == Confirmed)
    ensures var r := Book(appts, doctors, caller, req, freshId);
      r.response.Ok? <==>
        (exists d :: d in doctors && d.id == req.doctorId) &&
        (forall a | a in appts && a.doctor == req.doctorId && a.appointmentDate == req.appointmentDate &&
           a.appointmentTime == req.appointmentTime :: a.status == Cancelled || a.status == Completed) &&
        req.reason != ""
    ensures var r := Book(appts, doctors, caller, req, freshId);
      r.response == Fail(ValidationFailed({Field("reason")})) <==>
        (exists d :: d in doctors && d.id == req.doctorId) && !SlotTaken(appts, RequestedSlot(req)) &&
        req.reason == ""
  {
    var slot := RequestedSlot(req);
    if SlotTaken(appts, slot) {
      var i :| 0 <= i < |appts| && Occupies(appts[i], slot);
      assert appts[i] in appts;
    }
  }

  /** Booking does not look at the caller's role: a doctor books exactly as
      a patient does. */
  lemma BookIgnoresRole(appts: seq<Appointment>, doctors: seq<Doctor>, caller: User, req: BookingRequest, freshId: Id)
    ensures Book(appts, doctors, caller.(role := DoctorRole), req, freshId) ==
            Book(appts, doctors, caller.(role := PatientRole), req, freshId)
  {
  }

  /** A successful booking keeps "at most one active booking per slot". */
  lemma BookKeepsSingleBooking(appts: seq<Appointment>, doctors: seq<Doctor>, caller: User, req: BookingRequest, freshId: Id)
    requires SingleBooking(appts)
    ensures SingleBooking(Book(appts, doctors, caller, req, freshId).next)
  {
    var r := Book(appts, doctors, caller, req, freshId);
    if r.response.Ok? {
      var next := r.next;
      forall i, j | 0 <= i < j < |next| && IsActive(next[i].status) && IsActive(next[j].status)
        ensures SlotOf(next[i]) != SlotOf(next[j])
      {
        if j == |appts| {
          assert next[i] == appts[i];
          assert !Occupies(appts[i], RequestedSlot(req));
        }
      }
    }
  }

  /** A booking by a patient can be read back by that patient: it is pending
      and carries the requested doctor, date, time and reason. */
  lemma BookThenGet(appts: seq<Appointment>, doctors: seq<Doctor>, caller: User, req: BookingRequest, freshId: Id)
    requires caller.role == PatientRole
    requires forall a | a in appts :: a.id != freshId
    requires Book(appts, doctors, caller, req, freshId).response.Ok?
    ensures var r := Book(appts, doctors, caller, req, freshId);
      && Get(r.next, doctors, caller, freshId) == r.response
      && r.response.value.status == Pending
      && r.response.value.reason == req.reason
      && SlotOf(r.response.value) == RequestedSlot(req)
  {
    var r := Book(appts, doctors, caller, req, freshId);
    var next := r.next;
    assert HasId(freshId)(next[|appts|]);
    forall j | 0 <= j < |appts|
      ensures !HasId(freshId)(next[j])
    {
      assert next[j] == appts[j] && appts[j] in appts;
    }
  }

  // ------------------------------------------------------ PUT /:id/status

  /** Any status may be written by a caller allowed to modify the record:
      there is no transition guard. */
  function SetStatus(appts: seq<Appointment>, doctors: seq<Doctor>, caller: User, id: Id, status: Status)
    : (r: Step<seq<Appointment>, Appointment>)
    ensures r.response.Fail? ==> r.next == appts
    ensures r.response.Ok? || r.response == Fail(NotFound) || r.response == Fail(Forbidden)
    ensures r.response == Fail(NotFound) <==> forall a | a in appts :: a.id != id
    ensures r.response.Ok? ==>
      exists k :: 0 <= k < |appts| && appts[k].id == id &&
        r.next == appts[k := appts[k].(status := status)] && r.response.value == r.next[k]
  {
    match Locate(appts, id)
    case None => Step(appts, Fail(NotFound))
    case Some(k) =>
      if !MayModify(caller, Doctors.ProfileOf(doctors, caller.id), appts[k]) then Step(appts, Fail(Forbidden))
      else
        var updated := appts[k].(status := status);
        Step(appts[k := updated], Ok(updated))
  }

  /** With unique ids, a status update rewrites the status of the one record
      with that id and nothing else. */
  lemma SetStatusChangesOnlyTarget(appts: seq<Appointment>, doctors: seq<Doctor>, caller: User, id: Id, status: Status)
    requires UniqueIds(appts)
    requires SetStatus(appts, doctors, caller, id, status).response.Ok?
    ensures var next := SetStatus(appts, doctors, caller, id, status).next;
      |next| == |appts| &&
      forall i :: 0 <= i < |appts| ==>
        next[i] == if appts[i].id == id then appts[i].(status := status) else appts[i]
  {
  }

  /** Every status is accepted for a record the caller may modify. */
  lemma NoTransitionGuard(appts: seq<Appointment>, doctors: seq<Doctor>, caller: User, a: Appointment, status: Status)
    requires UniqueIds(appts) && a in appts
    requires MayModify(caller, Doctors.ProfileOf(doctors, caller.id), a)
    ensures SetStatus(appts, doctors, caller, a.id, status).response == Ok(a.(status := status))
  {
    LocateUnique(appts, a);
  }

  /** Setting a cancelled record back to pending is accepted even when its
      slot has been booked again: in any store with unique ids and one active
      booking per slot, a caller who may modify a cancelled record whose slot
      another active record holds can reactivate it, and the store then has
      two active bookings in that slot. */
  lemma ReactivationBreaksSingleBooking(appts: seq<Appointment>, doctors: seq<Doctor>, caller: User,
                                        c: Appointment, b: Appointment)
    requires UniqueIds(appts) && SingleBooking(appts)
    requires c in appts && c.status == Cancelled
    requires b in appts && IsActive(b.status) && SlotOf(b) == SlotOf(c)
    requires MayModify(caller, Doctors.ProfileOf(doctors, caller.id), c)
    ensures SetStatus(appts, doctors, caller, c.id, Pending).response.Ok?
    ensures !SingleBooking(SetStatus(appts, doctors, caller, c.id, Pending).next)
  {
    LocateUnique(appts, c);
    var k := Locate(appts, c.id).value;
    var m :| 0 <= m < |appts| && appts[m] == b;
    assert m != k;
    var next := SetStatus(appts, doctors, caller, c.id, Pending).next;
    assert next[k] == c.(status := Pending) && next[m] == b;
    var i, j := if k < m then k else m, if k < m then m else k;
    assert IsActive(next[i].status) && IsActive(next[j].status) && SlotOf(next[i]) == SlotOf(next[j]);
  }

  // ------------------------------------------------------------ DELETE /:id

  /** The delete route removes the record outright. */
  function Cancel(appts: seq<Appointment>, doctors: seq<Doctor>, caller: User, id: Id): (r: Step<seq<Appointment>, ()>)
    ensures r.response.Fail? ==> r.next == appts
    ensures r.response.Ok? || r.response == Fail(NotFound) || r.response == Fail(Forbidden)
    ensures r.response == Fail(NotFound) <==> forall a | a in appts :: a.id != id
    ensures r.response.Ok? ==>
      exists k :: 0 <= k < |appts| && appts[k].id == id && r.next == appts[..k] + appts[k + 1..]
    ensures Locate(appts, id).Some? ==>
      (r.response.Ok? <==> MayModify(caller, Doctors.ProfileOf(doctors, caller.id), appts[Locate(appts, id).value]))
  {
    match Locate(appts, id)
    case None => Step(appts, Fail(NotFound))
    case Some(k) =>
      if !MayModify(caller, Doctors.ProfileOf(doctors, caller.id), appts[k]) then Step(appts, Fail(Forbidden))
      else Step(appts[..k] + appts[k + 1..], Ok(()))
  }

  /** A successful delete removes exactly one copy of the target record. */
  lemma CancelRemovesTarget(appts: seq<Appointment>, doctors: seq<Doctor>, caller: User, a: Appointment)
    requires UniqueIds(appts) && a in appts
    requires Cancel(appts, doctors, caller, a.id).response.Ok?
    ensures multiset(Cancel(appts, doctors, caller, a.id).next) == multiset(appts) - multiset{a}
    ensures a !in Cancel(appts, doctors, caller, a.id).next
  {
    LocateUnique(appts, a);
    var k := Locate(appts, a.id).value;
    RemoveAtMultiset(appts, k);
    var next := Cancel(appts, doctors, caller, a.id).next;
    assert next == appts[..k] + appts[k + 1..];
    forall i | 0 <= i < |next|
      ensures next[i].id != a.id
    {
      var i' := if i < k then i else i + 1;
      assert next[i] == appts[i'];
    }
  }

  /** A delete keeps "at most one active booking per slot". */
  lemma CancelKeepsSingleBooking(appts: seq<Appointment>, doctors: seq<Doctor>, caller: User, id: Id)
    requires SingleBooking(appts)
    ensures SingleBooking(Cancel(appts, doctors, caller, id).next)
  {
    var r := Cancel(appts, doctors, caller, id);
    if r.response.Ok? {
      var k := Locate(appts, id).value;
      assert r.next == appts[..k] + appts[k + 1..];
      RemovalKeepsSingleBooking(appts, k);
    }
  }

  /** Removing the record at `k` keeps "at most one active booking per slot". */
  lemma RemovalKeepsSingleBooking(appts: seq<Appointment>, k: nat)
    requires k < |appts| && SingleBooking(appts)
    ensures SingleBooking(appts[..k] + appts[k + 1..])
  {
    var next := appts[..k] + appts[k + 1..];
    forall i, j | 0 <= i < j < |next| && IsActive(next[i].status) && IsActive(next[j].status)
      ensures SlotOf(next[i]) != SlotOf(next[j])
    {
      var i' := if i < k then i else i + 1;
      var j' := if j < k then j else j + 1;
      assert next[i] == appts[i'] && next[j] == appts[j'];
    }
  }

  /** Deleting an active booking frees its slot: the same doctor, date and
      time can then be booked again. */
  lemma CancelFreesSlot(appts: seq<Appointment>, doctors: seq<Doctor>, caller: User, a: Appointment,
                        patient: User, reason: string, freshId: Id)
    requires SingleBooking(appts) && UniqueIds(appts)
    requires a in appts && IsActive(a.status)
    requires Cancel(appts, doctors, caller, a.id).response.Ok?
    requires exists d :: d in doctors && d.id == a.doctor
    requires reason != ""
    ensures var req := BookingRequest(a.doctor, a.appointmentDate, a.appointmentTime, reason);
      Book(Cancel(appts, doctors, caller, a.id).next, doctors, patient, req, freshId).response.Ok?
  {
    LocateUnique(appts, a);
    var k := Locate(appts, a.id).value;
    var next := Cancel(appts, doctors, caller, a.id).next;
    assert next == appts[..k] + appts[k + 1..];
    var req := BookingRequest(a.doctor, a.appointmentDate, a.appointmentTime, reason);
    forall i | 0 <= i < |next|
      ensures !Occupies(next[i], RequestedSlot(req))
    {
      var i' := if i < k then i else i + 1;
      assert next[i] == appts[i'];
      assert i' != k;
    }
  }

  // ------------------------------------------------------ access, together

  /** With unique ids, the access checks alone decide a read or a delete of
      a stored record: a caller who passes the read check gets the record,
      one who passes the modify check gets it deleted, and every other
      caller gets Forbidden. */
  lemma AccessChecksDecide(appts: seq<Appointment>, doctors: seq<Doctor>, caller: User, a: Appointment)
    requires UniqueIds(appts) && a in appts
    ensures Get(appts, doctors, caller, a.id) ==
      if MayRead(caller, Doctors.ProfileOf(doctors, caller.id), a) then Ok(a) else Fail(Forbidden)
    ensures Cancel(appts, doctors, caller, a.id).response ==
      if MayModify(caller, Doctors.ProfileOf(doctors, caller.id), a) then Ok(()) else Fail(Forbidden)
  {
    LocateUnique(appts, a);
  }

  /** A patient can neither read, re-status nor delete another patient's
      appointment, and such attempts change nothing. */
  lemma PatientConfinedToOwnAppointments(appts: seq<Appointment>, doctors: seq<Doctor>, caller: User,
                                         a: Appointment, status: Status)
    requires UniqueIds(appts) && a in appts
    requires caller.role == PatientRole && a.patient != caller.id
    ensures Get(appts, doctors, caller, a.id) == Fail(Forbidden)
    ensures SetStatus(appts, doctors, caller, a.id, status) == Step(appts, Fail(Forbidden))
    ensures Cancel(appts, doctors, caller, a.id) == Step(appts, Fail(Forbidden))
  {
    LocateUnique(appts, a);
  }

  /** A doctor with a profile can neither read, re-status nor delete an
      appointment with another doctor. */
  lemma DoctorConfinedToOwnAppointments(appts: seq<Appointment>, doctors: seq<Doctor>, caller: User,
                                        a: Appointment, status: Status)
    requires UniqueIds(appts) && a in appts
    requires caller.role == DoctorRole
    requires Doctors.ProfileOf(doctors, caller.id).Some?
    requires a.doctor != Doctors.ProfileOf(doctors, caller.id).value.id
    ensures Get(appts, doctors, caller, a.id) == Fail(Forbidden)
    ensures SetStatus(appts, doctors, caller, a.id, status) == Step(appts, Fail(Forbidden))
    ensures Cancel(appts, doctors, caller, a.id) == Step(appts, Fail(Forbidden))
  {
    LocateUnique(appts, a);
  }

  /** A doctor user without a profile reads every appointment but may not
      re-status or delete any. */
  lemma ProfilelessDoctorReadsAll(appts: seq<Appointment>, doctors: seq<Doctor>, caller: User,
                                  a: Appointment, status: Status)
    requires UniqueIds(appts) && a in appts
    requires caller.role == DoctorRole
    requires forall d | d in doctors :: d.user != caller.id
    ensures Get(appts, doctors, caller, a.id) == Ok(a)
    ensures SetStatus(appts, doctors, caller, a.id, status) == Step(appts, Fail(Forbidden))
    ensures Cancel(appts, doctors, caller, a.id) == Step(appts, Fail(Forbidden))
  {
    LocateUnique(appts, a);
  }

  // ------------------------------------------------------------- scenario

  /** Patient A books doctor B's 10:00 slot; patient C's booking of the same
      slot is refused; B confirms A's booking; A deletes it, after which A's
      list is empty. */
  lemma BookingScenario()
    ensures
      var a := User(0, "A", "a@x.com", PasswordHash("ha"), "1", PatientRole, None, None);
      var b := User(1, "B", "b@x.com", PasswordHash("hb"), "2", DoctorRole, None, None);
      var c := User(3, "C", "c@x.com", PasswordHash("hc"), "3", PatientRole, None, None);
      var doctors := [Doctor(2, b.id, "Cardiology", 10, "MBBS", 500, [], 0, 0)];
      var booked := Book([], doctors, a, BookingRequest(2, 20250601, "10:00", "checkup"), 10);
      var clash := Book(booked.next, doctors, c, BookingRequest(2, 20250601, "10:00", "fever"), 11);
      var confirmed := SetStatus(booked.next, doctors, b, 10, Confirmed);
      var cancelled := Cancel(confirmed.next, doctors, a, 10);
      && booked.response == Ok(Appointment(10, 0, 2, 20250601, "10:00", "checkup", Pending))
      && clash == Step(booked.next, Fail(SlotBooked))
      && confirmed.response == Ok(Appointment(10, 0, 2, 20250601, "10:00", "checkup", Confirmed))
      && cancelled.response == Ok(())
      && List(cancelled.next, doctors, a) == []
  {
    var a := User(0, "A", "a@x.com", PasswordHash("ha"), "1", PatientRole, None, None);
    var b := User(1, "B", "b@x.com", PasswordHash("hb"), "2", DoctorRole, None, None);
    var c := User(3, "C", "c@x.com", PasswordHash("hc"), "3", PatientRole, None, None);
    var profile := Doctor(2, b.id, "Cardiology", 10, "MBBS", 500, [], 0, 0);
    var doctors := [profile];
    assert Doctors.HasId(2)(doctors[0]);
    assert Doctors.OwnedBy(1)(doctors[0]);
    var pending := Appointment(10, 0, 2, 20250601, "10:00", "checkup", Pending);
    var booked := Book([], doctors, a, BookingRequest(2, 20250601, "10:00", "checkup"), 10);
    assert booked.next == [pending];
    assert Occupies(booked.next[0], RequestedSlot(BookingRequest(2, 20250601, "10:00", "fever")));
    assert HasId(10)(booked.next[0]);
    var confirmed := SetStatus(booked.next, doctors, b, 10, Confirmed);
    assert confirmed.next == [pending.(status := Confirmed)];
    assert HasId(10)(confirmed.next[0]);
    var cancelled := Cancel(confirmed.next, doctors, a, 10);
    assert cancelled.next == [];
  }
}
