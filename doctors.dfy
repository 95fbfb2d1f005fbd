/** The doctor directory routes: the public list and lookup, the
    self-service profile creation and update, and a doctor's appointment list. */
module Doctors {
  import opened Wrappers
  import opened Http
  import opened Identity
  import opened Seqs
  import opened Text
  import opened DoctorSchema
  import opened AppointmentSchema

  function HasId(id: Id): Doctor -> bool
  {
    (d: Doctor) => d.id == id
  }

  function OwnedBy(user: Id): Doctor -> bool
  {
    (d: Doctor) => d.user == user
  }

  /** `Doctor.findById(id)`. */
  function FindDoctor(doctors: seq<Doctor>, id: Id): (r: Option<Doctor>)
    ensures r.None? <==> forall d | d in doctors :: d.id != id
    ensures r.Some? ==> r.value in doctors && r.value.id == id
  {
    match FirstIndex(doctors, HasId(id))
    case None => None
    case Some(k) => Some(doctors[k])
  }

  /** `Doctor.findOne({ user })`: the caller's profile, if any. */
  function ProfileOf(doctors: seq<Doctor>, user: Id): (r: Option<Doctor>)
    ensures r.None? <==> forall d | d in doctors :: d.user != user
    ensures r.Some? ==> r.value in doctors && r.value.user == user
  {
    match FirstIndex(doctors, OwnedBy(user))
    case None => None
    case Some(k) => Some(doctors[k])
  }

  /** MongoDB's unique index on `_id`. */
  predicate UniqueIds(doctors: seq<Doctor>)
  {
    forall i, j :: 0 <= i < j < |doctors| ==> doctors[i].id != doctors[j].id
  }

  /** No user owns two profiles. */
  predicate OneProfilePerUser(doctors: seq<Doctor>)
  {
    forall i, j :: 0 <= i < j < |doctors| ==> doctors[i].user != doctors[j].user
  }

  // ---------------------------------------------------------------- GET /

  /** The `specialization` query parameter: when present and not empty it
      keeps the profiles whose specialization contains it, ignoring case. */
  predicate SpecializationMatches(filter: Option<string>, d: Doctor)
  {
    filter.None? || filter.value == "" || IncludesIgnoringCase(d.specialization, filter.value)
  }

  function MatchingFilter(filter: Option<string>): Doctor -> bool
  {
    (d: Doctor) => SpecializationMatches(filter, d)
  }

  /** `Doctor.find(query)`: the matching profiles in natural order. */
  function List(doctors: seq<Doctor>, filter: Option<string>): (r: seq<Doctor>)
    ensures IsSubsequence(r, doctors)
    ensures forall d :: d in r <==> d in doctors && SpecializationMatches(filter, d)
  {
    FilterIsSubsequence(doctors, MatchingFilter(filter));
    Filter(doctors, MatchingFilter(filter))
  }

  /** Without a specialization (or with an empty one) every profile is listed. */
  lemma ListWithoutFilter(doctors: seq<Doctor>, filter: Option<string>)
    requires filter.None? || filter == Some("")
    ensures List(doctors, filter) == doctors
  {
    FilterKeepsAll(doctors, MatchingFilter(filter));
  }

  /** With a specialization, a profile is listed exactly when the lower-cased
      term stands somewhere in its lower-cased specialization. */
  lemma ListWithFilter(doctors: seq<Doctor>, term: string, d: Doctor)
    requires term != ""
    ensures d in List(doctors, Some(term)) <==>
      d in doctors && exists k: nat :: k <= |d.specialization| && OccursAt(Lower(d.specialization), Lower(term), k)
  {
    assert d in List(doctors, Some(term)) <==>
      d in doctors && Includes(Lower(d.specialization), Lower(term));
    IncludesIffOccurs(Lower(d.specialization), Lower(term));
  }

  // ------------------------------------------------------------- GET /:id

  function Get(doctors: seq<Doctor>, id: Id): (r: Outcome<Doctor>)
    ensures r == Fail(NotFound) <==> forall d | d in doctors :: d.id != id
    ensures r.Ok? || r == Fail(NotFound)
    ensures r.Ok? ==> r.value in doctors && r.value.id == id
  {
    match FindDoctor(doctors, id)
    case None => Fail(NotFound)
    case Some(d) => Ok(d)
  }

  // ---------------------------------------------------------------- POST /

  /** `authorize('doctor')`, then one profile per user, then validation. */
  function CreateProfile(doctors: seq<Doctor>, caller: User, fields: ProfileFields, freshId: Id): (r: Step<seq<Doctor>, Doctor>)
    ensures r.response.Fail? ==> r.next == doctors
    ensures r.response == Fail(Forbidden) <==> caller.role != DoctorRole
    ensures r.response == Fail(ProfileExists) <==>
      caller.role == DoctorRole && exists d :: d in doctors && d.user == caller.id
    ensures r.response.Ok? ==>
      && r.next == doctors + [r.response.value]
      && r.response.value.user == caller.id
      && r.response.value.id == freshId
      && forall d | d in doctors :: d.user != caller.id
    ensures caller.role == DoctorRole && (forall d | d in doctors :: d.user != caller.id) ==>
      && r.response == NewDoctor(freshId, ProfileInput(caller.id, fields))
      && (r.response.Ok? ==> r.next == doctors + [r.response.value])
  {
    if caller.role != DoctorRole then Step(doctors, Fail(Forbidden))
    else if ProfileOf(doctors, caller.id).Some? then Step(doctors, Fail(ProfileExists))
    else
      match NewDoctor(freshId, ProfileInput(caller.id, fields))
      case Fail(e) => Step(doctors, Fail(e))
      case Ok(d) => Step(doctors + [d], Ok(d))
  }

  /** Creating a profile keeps "at most one profile per user". */
  lemma CreateProfileKeepsOneProfilePerUser(doctors: seq<Doctor>, caller: User, fields: ProfileFields, freshId: Id)
    requires OneProfilePerUser(doctors)
    ensures OneProfilePerUser(CreateProfile(doctors, caller, fields, freshId).next)
  {
    var r := CreateProfile(doctors, caller, fields, freshId);
    if r.response.Ok? {
      var next := r.next;
      forall i, j | 0 <= i < j < |next|
        ensures next[i].user != next[j].user
      {
        if j == |doctors| {
          assert next[i] == doctors[i];
          assert doctors[i] in doctors;
        }
      }
    }
  }

  /** A doctor without a profile who supplies every field gets a profile
      that carries the request's specialization, experience, education and
      fee, with rating 0, no reviews and no slots. */
  lemma CreateProfileStoresRequest(doctors: seq<Doctor>, caller: User, fields: ProfileFields, freshId: Id)
    requires caller.role == DoctorRole && forall d | d in doctors :: d.user != caller.id
    requires PresentText(fields.specialization) && fields.experience.Some?
    requires PresentText(fields.education) && fields.consultationFee.Some?
    ensures var r := CreateProfile(doctors, caller, fields, freshId);
      && r.response.Ok?
      && r.next == doctors + [r.response.value]
      && var d := r.response.value;
      && d.id == freshId && d.user == caller.id
      && Some(d.specialization) == fields.specialization && Some(d.experience) == fields.experience
      && Some(d.education) == fields.education && Some(d.consultationFee) == fields.consultationFee
      && d.rating == 0 && d.totalReviews == 0 && d.availableSlots == []
  {
    ProfileDefaults(freshId, caller.id, fields);
  }

  // ------------------------------------------------------------- PUT /:id

  /** The request body of an update: any schema field may be supplied. */
  datatype ProfilePatch = ProfilePatch(
    user: Option<Id>,
    specialization: Option<string>,
    experience: Option<int>,
    education: Option<string>,
    consultationFee: Option<int>,
    availableSlots: Option<seq<AvailableSlot>>,
    rating: Option<int>,
    totalReviews: Option<int>)

  const NO_CHANGES := ProfilePatch(None, None, None, None, None, None, None, None)

  /** `findByIdAndUpdate(id, body)`: the supplied fields overwrite, the others
      stay; the id never changes. */
  function ApplyPatch(d: Doctor, p: ProfilePatch): (r: Doctor)
    ensures r.id == d.id
    ensures p == NO_CHANGES ==> r == d
  {
    Doctor(
      d.id,
      p.user.GetOr(d.user),
      p.specialization.GetOr(d.specialization),
      p.experience.GetOr(d.experience),
      p.education.GetOr(d.education),
      p.consultationFee.GetOr(d.consultationFee),
      p.availableSlots.GetOr(d.availableSlots),
      p.rating.GetOr(d.rating),
      p.totalReviews.GetOr(d.totalReviews))
  }

  /** Applying the same body twice is applying it once. */
  lemma ApplyPatchIdempotent(d: Doctor, p: ProfilePatch)
    ensures ApplyPatch(ApplyPatch(d, p), p) == ApplyPatch(d, p)
  {
  }

  /** The update validators (`runValidators`): a supplied specialization or
      education must not be empty. */
  function PatchPaths(p: ProfilePatch): (r: set<Path>)
    ensures r <= {Field("specialization"), Field("education")}
    ensures Field("specialization") in r <==> p.specialization == Some("")
    ensures Field("education") in r <==> p.education == Some("")
  {
    (if p.specialization == Some("") then {Field("specialization")} else {}) +
    (if p.education == Some("") then {Field("education")} else {})
  }

  /** The caller's profile is looked up by user; the `:id` path parameter is
      accepted and never read. */
  function UpdateProfile(doctors: seq<Doctor>, caller: User, pathId: Id, patch: ProfilePatch): (r: Step<seq<Doctor>, Doctor>)
    ensures r.response.Fail? ==> r.next == doctors
    ensures r.response == Fail(Forbidden) <==> caller.role != DoctorRole
    ensures r.response == Fail(NotFound) <==>
      caller.role == DoctorRole && forall d | d in doctors :: d.user != caller.id
    ensures r.response.Ok? <==>
      caller.role == DoctorRole && (exists d :: d in doctors && d.user == caller.id) && PatchPaths(patch) == {}
    ensures r.response.Fail? && r.response.error.ValidationFailed? ==>
      r.response.error == ValidationFailed(PatchPaths(patch))
    ensures caller.role == DoctorRole && (exists d :: d in doctors && d.user == caller.id) && PatchPaths(patch) != {} ==>
      r.response == Fail(ValidationFailed(PatchPaths(patch)))
    ensures r.response.Ok? ==>
      exists j :: 0 <= j < |doctors| && doctors[j].id == ProfileOf(doctors, caller.id).value.id &&
        r.next == doctors[j := ApplyPatch(doctors[j], patch)] && r.response.value == r.next[j]
  {
    if caller.role != DoctorRole then Step(doctors, Fail(Forbidden))
    else
      match ProfileOf(doctors, caller.id)
      case None => Step(doctors, Fail(NotFound))
      case Some(doctor) =>
        if PatchPaths(patch) != {} then Step(doctors, Fail(ValidationFailed(PatchPaths(patch))))
        else
          var j := FirstIndex(doctors, HasId(doctor.id));
          assert j.Some? by {
            var k :| 0 <= k < |doctors| && doctors[k] == doctor;
            assert HasId(doctor.id)(doctors[k]);
          }
          var updated := ApplyPatch(doctors[j.value], patch);
          Step(doctors[j.value := updated], Ok(updated))
  }

  /** The result does not depend on the `:id` path parameter. */
  lemma UpdateIgnoresPathId(doctors: seq<Doctor>, caller: User, id1: Id, id2: Id, patch: ProfilePatch)
    ensures UpdateProfile(doctors, caller, id1, patch) == UpdateProfile(doctors, caller, id2, patch)
  {
  }

  /** With unique ids, an update rewrites the caller's own profile (the first
      one owned by the caller) and leaves every other profile as it was. */
  lemma UpdateTargetsOwnProfile(doctors: seq<Doctor>, caller: User, pathId: Id, patch: ProfilePatch)
    requires UniqueIds(doctors)
    requires UpdateProfile(doctors, caller, pathId, patch).response.Ok?
    ensures var r := UpdateProfile(doctors, caller, pathId, patch);
      exists k :: 0 <= k < |doctors| && doctors[k].user == caller.id &&
        |r.next| == |doctors| &&
        r.next[k] == ApplyPatch(doctors[k], patch) &&
        (forall i :: 0 <= i < |doctors| && i != k ==> r.next[i] == doctors[i]) &&
        (forall i :: 0 <= i < k ==> doctors[i].user != caller.id)
  {
    var r := UpdateProfile(doctors, caller, pathId, patch);
    var k := FirstIndex(doctors, OwnedBy(caller.id)).value;
    var j :| 0 <= j < |doctors| && doctors[j].id == ProfileOf(doctors, caller.id).value.id &&
      r.next == doctors[j := ApplyPatch(doctors[j], patch)];
    assert doctors[k].id == doctors[j].id;
    assert j == k;
    forall i | 0 <= i < k
      ensures doctors[i].user != caller.id
    {
      assert !OwnedBy(caller.id)(doctors[i]);
    }
  }

  /** The body may carry `user`: a doctor whose profile comes first can hand
      it to the owner of another profile, whatever the path id, so updates do
      not keep "one profile per user". */
  lemma UpdateCanBreakOneProfilePerUser(mine: Doctor, theirs: Doctor, caller: User, pathId: Id)
    requires caller.role == DoctorRole && mine.user == caller.id && theirs.user != caller.id
    ensures var doctors := [mine, theirs];
      var r := UpdateProfile(doctors, caller, pathId, NO_CHANGES.(user := Some(theirs.user)));
      && OneProfilePerUser(doctors)
      && r.response.Ok?
      && !OneProfilePerUser(r.next)
  {
    var doctors := [mine, theirs];
    var r := UpdateProfile(doctors, caller, pathId, NO_CHANGES.(user := Some(theirs.user)));
    assert OwnedBy(caller.id)(doctors[0]);
    assert r.response.Ok?;
    assert r.next[0].user == theirs.user == r.next[1].user;
  }

  // ------------------------------------------------ GET /:id/appointments

  function ForDoctor(id: Id): Appointment -> bool
  {
    (a: Appointment) => a.doctor == id
  }

  /** Every appointment of the given doctor id, by date; any authenticated
      caller may ask, and an unknown id gives an empty list. */
  function DoctorAppointments(appts: seq<Appointment>, doctorId: Id): (r: seq<Appointment>)
    ensures SortedByDate(r)
    ensures forall a :: multiset(r)[a] == if a.doctor == doctorId then multiset(appts)[a] else 0
  {
    SortByDate(Filter(appts, ForDoctor(doctorId)))
  }

  /** A search for "cardio" finds a cardiologist, and one for "dermat" finds
      nobody. */
  lemma SpecializationSearchExample(d: Doctor)
    requires d.specialization == "Cardiology"
    ensures List([d], Some("cardio")) == [d]
    ensures List([d], Some("dermat")) == []
  {
    CardiologySearchTerms(d.specialization, "cardio", "dermat");
    ListOne(d, Some("cardio"));
    ListOne(d, Some("dermat"));
  }

  lemma ListOne(d: Doctor, filter: Option<string>)
    ensures List([d], filter) == if SpecializationMatches(filter, d) then [d] else []
  {
    assert List([d], filter) == (if MatchingFilter(filter)(d) then [d] else []) + Filter([d][1..], MatchingFilter(filter));
  }

  lemma CardiologySearchTerms(s: string, hit: string, miss: string)
    requires s == "Cardiology" && hit == "cardio" && miss == "dermat"
    ensures IncludesIgnoringCase(s, hit) && !IncludesIgnoringCase(s, miss)
  {
    var low := LowerCardiology(s);
    LowerKeepsLowercase(hit);
    LowerKeepsLowercase(miss);
    assert hit <= low;
    CardiologyExcludesDermat(low, miss);
  }

  lemma LowerCardiology(s: string) returns (low: string)
    requires s == "Cardiology"
    ensures Lower(s) == low && low == "cardiology"
  {
    var rest := s[1..];
    LowerKeepsLowercase(rest);
    low := Lower(s);
    assert low == [LowerChar(s[0])] + rest;
  }

  lemma CardiologyExcludesDermat(low: string, miss: string)
    requires low == "cardiology" && miss == "dermat"
    ensures !Includes(low, miss)
  {
    IncludesIffOccurs(low, miss);
    forall k: nat | k <= |low|
      ensures !OccursAt(low, miss, k)
    {
      if k + |miss| <= |low| {
        assert low[k..k + |miss|][0] == low[k] && low[k..k + |miss|][1] == low[k + 1];
        assert low[0] == 'c' && low[1] == 'a' && low[2] == 'r' && low[3] == 'd' && low[4] == 'i' && low[5] == 'o';
      }
    }
  }
}
