/** The Doctor document: its fields, which of them are required, their
    defaults, and the weekday enum of the available slots. */
module DoctorSchema {
  import opened Wrappers
  import opened Http
  import opened Identity

  datatype Weekday = Monday | Tuesday | Wednesday | Thursday | Friday | Saturday | Sunday

  /** The values the `day` enum admits. */
  const DAY_NAMES: set<string> :=
    {"monday", "tuesday", "wednesday", "thursday", "friday", "saturday", "sunday"}

  function DayName(d: Weekday): string
  {
    match d
    case Monday => "monday"
    case Tuesday => "tuesday"
    case Wednesday => "wednesday"
    case Thursday => "thursday"
    case Friday => "friday"
    case Saturday => "saturday"
    case Sunday => "sunday"
  }

  /** The enum validator: a `day` string is accepted exactly when it is one of
      the seven lower-case weekday names, and it then names one weekday. */
  function ParseDay(s: string): (r: Option<Weekday>)
    ensures r.Some? <==> s in DAY_NAMES
    ensures r.Some? ==> DayName(r.value) == s
  {
    if s == "monday" then Some(Monday)
    else if s == "tuesday" then Some(Tuesday)
    else if s == "wednesday" then Some(Wednesday)
    else if s == "thursday" then Some(Thursday)
    else if s == "friday" then Some(Friday)
    else if s == "saturday" then Some(Saturday)
    else if s == "sunday" then Some(Sunday)
    else None
  }

  /** Every weekday has a valid name, and it parses back to that weekday. */
  lemma DayNameRoundTrip(d: Weekday)
    ensures DayName(d) in DAY_NAMES
    ensures ParseDay(DayName(d)) == Some(d)
  {
  }

  /** An `availableSlots` entry as it is stored. */
  datatype AvailableSlot = AvailableSlot(
    day: Option<Weekday>,
    startTime: Option<string>,
    endTime: Option<string>,
    isAvailable: bool)

  /** An `availableSlots` entry as it is supplied; every field may be absent. */
  datatype SlotInput = SlotInput(
    day: Option<string>,
    startTime: Option<string>,
    endTime: Option<string>,
    isAvailable: Option<bool>)

  /** `day` is not required, but when given it must be in the enum. */
  predicate ValidSlot(s: SlotInput)
  {
    s.day.None? || s.day.value in DAY_NAMES
  }

  /** The stored slot: `isAvailable` defaults to true. */
  function NewSlot(s: SlotInput): (r: AvailableSlot)
    requires ValidSlot(s)
    ensures r.isAvailable <==> s.isAvailable != Some(false)
    ensures r.day.None? <==> s.day.None?
    ensures r.day.Some? ==> DayName(r.day.value) == s.day.value
    ensures r.startTime == s.startTime && r.endTime == s.endTime
  {
    AvailableSlot(
      if s.day.None? then None else ParseDay(s.day.value),
      s.startTime, s.endTime, s.isAvailable.GetOr(true))
  }

  datatype Doctor = Doctor(
    id: Id,
    user: Id,
    specialization: string,
    experience: int,
    education: string,
    consultationFee: int,
    availableSlots: seq<AvailableSlot>,
    rating: int,
    totalReviews: int)

  /** The fields given to `new Doctor({...})`; every one may be absent. */
  datatype DoctorInput = DoctorInput(
    user: Option<Id>,
    specialization: Option<string>,
    experience: Option<int>,
    education: Option<string>,
    consultationFee: Option<int>,
    availableSlots: seq<SlotInput>,
    rating: Option<int>,
    totalReviews: Option<int>)

  /** The four profile fields a request body supplies to the handlers that
      create a doctor. */
  datatype ProfileFields = ProfileFields(
    specialization: Option<string>,
    experience: Option<int>,
    education: Option<string>,
    consultationFee: Option<int>)

  /** `new Doctor({ user, specialization, experience, education, consultationFee })`. */
  function ProfileInput(user: Id, f: ProfileFields): DoctorInput
  {
    DoctorInput(Some(user), f.specialization, f.experience, f.education, f.consultationFee, [], None, None)
  }

  /** Mongoose's `required` check on a string: present and not empty. */
  predicate PresentText(s: Option<string>)
  {
    s.Some? && s.value != ""
  }

  /** The required paths that are missing. */
  function MissingPaths(input: DoctorInput): set<Path>
  {
    (if input.user.None? then {Field("user")} else {}) +
    (if !PresentText(input.specialization) then {Field("specialization")} else {}) +
    (if input.experience.None? then {Field("experience")} else {}) +
    (if !PresentText(input.education) then {Field("education")} else {}) +
    (if input.consultationFee.None? then {Field("consultationFee")} else {})
  }

  /** The slot entries whose `day` is outside the enum. */
  function SlotPaths(slots: seq<SlotInput>): set<Path>
  {
    set i | 0 <= i < |slots| && !ValidSlot(slots[i]) :: SlotField(i, "day")
  }

  /** Validating and building a Doctor document, as `doctor.save()` does. */
  function NewDoctor(id: Id, input: DoctorInput): (r: Outcome<Doctor>)
    ensures r.Ok? <==>
      input.user.Some? && PresentText(input.specialization) && input.experience.Some? &&
      PresentText(input.education) && input.consultationFee.Some? &&
      forall i :: 0 <= i < |input.availableSlots| ==> ValidSlot(input.availableSlots[i])
    ensures r.Fail? ==> r.error == ValidationFailed(MissingPaths(input) + SlotPaths(input.availableSlots))
    ensures r.Ok? ==>
      var d := r.value;
      && d.id == id && d.user == input.user.value
      && d.specialization == input.specialization.value && d.experience == input.experience.value
      && d.education == input.education.value && d.consultationFee == input.consultationFee.value
      && d.rating == input.rating.GetOr(0) && d.totalReviews == input.totalReviews.GetOr(0)
      && |d.availableSlots| == |input.availableSlots|
      && forall i :: 0 <= i < |d.availableSlots| ==> d.availableSlots[i] == NewSlot(input.availableSlots[i])
  {
    var errors := MissingPaths(input) + SlotPaths(input.availableSlots);
    assert forall i :: 0 <= i < |input.availableSlots| && !ValidSlot(input.availableSlots[i]) ==>
      SlotField(i, "day") in errors;
    if errors != {} then
      Fail(ValidationFailed(errors))
    else
      var slots := seq(|input.availableSlots|, i requires 0 <= i < |input.availableSlots| => NewSlot(input.availableSlots[i]));
      Ok(Doctor(id, input.user.value, input.specialization.value, input.experience.value,
                input.education.value, input.consultationFee.value, slots,
                input.rating.GetOr(0), input.totalReviews.GetOr(0)))
  }

  /** A profile built from request fields has no slots, rating 0 and no
      reviews, and belongs to the given user. */
  lemma ProfileDefaults(id: Id, user: Id, f: ProfileFields)
    requires NewDoctor(id, ProfileInput(user, f)).Ok?
    ensures var d := NewDoctor(id, ProfileInput(user, f)).value;
      d.user == user && d.rating == 0 && d.totalReviews == 0 && d.availableSlots == []
  {
  }

  /** Leaving out any one of the five required fields makes validation fail
      and names that field. */
  lemma RequiredFields(id: Id, input: DoctorInput)
    ensures input.user.None? ==> NewDoctor(id, input) == Fail(ValidationFailed(MissingPaths(input) + SlotPaths(input.availableSlots))) && Field("user") in MissingPaths(input)
    ensures !PresentText(input.specialization) ==> NewDoctor(id, input).Fail? && Field("specialization") in MissingPaths(input)
    ensures input.experience.None? ==> NewDoctor(id, input).Fail? && Field("experience") in MissingPaths(input)
    ensures !PresentText(input.education) ==> NewDoctor(id, input).Fail? && Field("education") in MissingPaths(input)
    ensures input.consultationFee.None? ==> NewDoctor(id, input).Fail? && Field("consultationFee") in MissingPaths(input)
  {
  }
}
