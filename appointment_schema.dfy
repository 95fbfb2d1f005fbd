/** The Appointment document. Its schema file is not part of this model; the
    handlers rely on four statuses with `pending` as the default and on a
    required `reason`. */
module AppointmentSchema {
  import opened Http
  import opened Identity

  datatype Status = Pending | Confirmed | Cancelled | Completed

  /** `appointmentDate` is an abstract ordered value (a calendar date). */
  datatype Appointment = Appointment(
    id: Id,
    patient: Id,
    doctor: Id,
    appointmentDate: int,
    appointmentTime: string,
    reason: string,
    status: Status)

  /** Validating and building an Appointment document, as `appointment.save()`
      does: `reason` is required and `status` starts as pending. */
  function NewAppointment(id: Id, patient: Id, doctor: Id, date: int, time: string, reason: string): (r: Outcome<Appointment>)
    ensures r.Ok? <==> reason != ""
    ensures r.Fail? ==> r.error == ValidationFailed({Field("reason")})
    ensures r.Ok? ==> r.value.status == Pending
    ensures r.Ok? ==> r.value.id == id && r.value.patient == patient && r.value.doctor == doctor
    ensures r.Ok? ==> r.value.appointmentDate == date && r.value.appointmentTime == time && r.value.reason == reason
  {
    if reason == "" then Fail(ValidationFailed({Field("reason")}))
    else Ok(Appointment(id, patient, doctor, date, time, reason, Pending))
  }

  /** `.sort({ appointmentDate: 1 })`: ascending by date. */
  predicate SortedByDate(s: seq<Appointment>)
  {
    forall i, j :: 0 <= i < j < |s| ==> s[i].appointmentDate <= s[j].appointmentDate
  }

  /** Places `a` in front of the first later-dated record of a sorted list. */
  function InsertByDate(a: Appointment, s: seq<Appointment>): (r: seq<Appointment>)
    requires SortedByDate(s)
    ensures SortedByDate(r)
    ensures multiset(r) == multiset(s) + multiset{a}
    ensures |r| == |s| + 1
    ensures r[0] == a || (|s| > 0 && r[0] == s[0])
  {
    if s == [] || a.appointmentDate <= s[0].appointmentDate then
      PrependKeepsSorted(a, s);
      [a] + s
    else
      var rest := InsertByDate(a, s[1..]);
      assert s == [s[0]] + s[1..];
      PrependKeepsSorted(s[0], rest);
      [s[0]] + rest
  }

  /** A record dated no later than the head of a sorted list keeps it sorted
      when put in front. */
  lemma PrependKeepsSorted(x: Appointment, s: seq<Appointment>)
    requires SortedByDate(s)
    requires |s| > 0 ==> x.appointmentDate <= s[0].appointmentDate
    ensures SortedByDate([x] + s)
  {
    var r := [x] + s;
    forall i, j | 0 <= i < j < |r|
      ensures r[i].appointmentDate <= r[j].appointmentDate
    {
      if i == 0 {
        assert r[j] == s[j - 1];
      }
    }
  }

  /** The result of a query sorted by date: a permutation of its input in
      ascending date order. */
  function SortByDate(s: seq<Appointment>): (r: seq<Appointment>)
    ensures SortedByDate(r)
    ensures multiset(r) == multiset(s)
  {
    if s == [] then []
    else
      assert s == [s[0]] + s[1..];
      InsertByDate(s[0], SortByDate(s[1..]))
  }
}
