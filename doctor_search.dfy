/** The client's doctor search and the time options of its booking form. */
module DoctorSearch {
  import opened Seqs
  import opened Text
  import opened DoctorSchema

  /** A directory entry as the client receives it: the profile with its
      user's name filled in. */
  datatype DoctorCard = DoctorCard(profile: Doctor, userName: string)

  /** The search keeps a doctor whose lower-cased specialization or name
      contains the lower-cased term. */
  predicate Keeps(term: string, c: DoctorCard)
  {
    IncludesIgnoringCase(c.profile.specialization, term) || IncludesIgnoringCase(c.userName, term)
  }

  function KeepsTerm(term: string): DoctorCard -> bool
  {
    (c: DoctorCard) => Keeps(term, c)
  }

  /** `filteredDoctors`: the kept doctors, in the order received. */
  function FilteredDoctors(doctors: seq<DoctorCard>, term: string): (r: seq<DoctorCard>)
    ensures IsSubsequence(r, doctors)
    ensures forall c :: c in r <==> c in doctors && Keeps(term, c)
  {
    FilterIsSubsequence(doctors, KeepsTerm(term));
    Filter(doctors, KeepsTerm(term))
  }

  /** "Contains" in the sense of a match position: a doctor is kept exactly
      when the lower-cased term occurs at some position of its lower-cased
      specialization or of its lower-cased name. */
  lemma KeepsIffOccurs(term: string, c: DoctorCard)
    ensures Keeps(term, c) <==>
      (exists k: nat :: k <= |Lower(c.profile.specialization)| && OccursAt(Lower(c.profile.specialization), Lower(term), k)) ||
      (exists k: nat :: k <= |Lower(c.userName)| && OccursAt(Lower(c.userName), Lower(term), k))
  {
    assert Keeps(term, c) <==>
      Includes(Lower(c.profile.specialization), Lower(term)) || Includes(Lower(c.userName), Lower(term));
    IncludesIffOccurs(Lower(c.profile.specialization), Lower(term));
    IncludesIffOccurs(Lower(c.userName), Lower(term));
  }

  /** An empty search shows every doctor, in order. */
  lemma {:induction false} EmptySearchKeepsAll(doctors: seq<DoctorCard>)
    ensures FilteredDoctors(doctors, "") == doctors
  {
    forall c | c in doctors
      ensures KeepsTerm("")(c)
    {
      IncludesEmpty(Lower(c.profile.specialization));
    }
    FilterKeepsAll(doctors, KeepsTerm(""));
  }

  /** The values of the appointment-time select, after its empty placeholder. */
  const TIME_OPTIONS: seq<string> := ["09:00", "10:00", "11:00", "12:00", "14:00", "15:00", "16:00", "17:00"]

  /** A label of the form "HH:00". */
  predicate OnTheHour(t: string)
  {
    |t| == 5 && '0' <= t[0] <= '9' && '0' <= t[1] <= '9' && t[2..] == ":00"
  }

  /** The hour an "HH:MM" label names. */
  function HourOf(t: string): (h: int)
    requires |t| >= 2 && '0' <= t[0] <= '9' && '0' <= t[1] <= '9'
    ensures 0 <= h <= 99
  {
    (t[0] as int - '0' as int) * 10 + (t[1] as int - '0' as int)
  }

  /** Some option is the whole hour `h`. */
  predicate Offered(h: int)
  {
    exists i :: 0 <= i < |TIME_OPTIONS| && OnTheHour(TIME_OPTIONS[i]) && HourOf(TIME_OPTIONS[i]) == h
  }

  /** The selectable times are the whole hours from 9 to 17 except 13:
      every option is such an hour, every such hour is offered, and the
      options rise strictly, so each is offered once. */
  lemma TimeOptionsAreWorkingHours()
    ensures forall i :: 0 <= i < |TIME_OPTIONS| ==>
      OnTheHour(TIME_OPTIONS[i]) && 9 <= HourOf(TIME_OPTIONS[i]) <= 17 && HourOf(TIME_OPTIONS[i]) != 13
    ensures forall h :: 9 <= h <= 17 && h != 13 ==> Offered(h)
    ensures forall i, j :: 0 <= i < j < |TIME_OPTIONS| ==> HourOf(TIME_OPTIONS[i]) < HourOf(TIME_OPTIONS[j])
  {
    forall h | 9 <= h <= 17 && h != 13
      ensures Offered(h)
    {
      var i := if h < 13 then h - 9 else h - 10;
      assert OnTheHour(TIME_OPTIONS[i]) && HourOf(TIME_OPTIONS[i]) == h;
    }
  }
}
