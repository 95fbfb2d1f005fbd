# DocEase booking core in Dafny

DocEase is a doctor-appointment service: an Express/MongoDB server plus a
React client. This project models the core of the server and two small pure
pieces of the client, and proves properties about them:

- **The booking ledger.** The five `/api/appointments` routes:
  - list, scoped to the caller and sorted by date;
  - get, with its 404/403 checks;
  - book, with its doctor-existence and slot-conflict checks;
  - status update, an unconditional overwrite;
  - delete.
- **The doctor directory and self-service profiles.** The `/api/doctors`
  routes:
  - a case-insensitive specialization filter;
  - get by id;
  - one-profile-per-user create;
  - an update that always targets the caller's own profile;
  - the per-doctor appointment list.
- **Registration and login.** Email uniqueness, the role default, the
  paired doctor profile, and the single "Invalid credentials" error.
- **The Doctor document.** Its required fields, its defaults and the
  weekday enum of its slots.
- **The client's doctor search and time options.** The search filter and
  the fixed appointment-time options.

Modules follow the program's structure:

| module | models |
|---|---|
| `Identity` | the users the handlers see |
| `DoctorSchema` | `server/models/Doctor.js` |
| `AppointmentSchema` | the Appointment document the handlers rely on |
| `Doctors` | `server/routes/doctors.js` |
| `Appointments` | `server/routes/appointments.js` |
| `Auth` | `server/routes/auth.js` |
| `DoctorSearch` | `client/src/pages/Doctors.js` |
| `Http` | error kinds and status codes |
| `Seqs`, `Text` | MongoDB's `find`/`findOne` and JavaScript's `toLowerCase`/`includes` |
| `Backend` | the database as one class, `Backend.Store` |

Each route is modelled in two layers:

- **A function.** It maps the collections and the request to a `Step`: the
  new collection plus the response (`Ok` or a `Fail` carrying the error
  kind). The lemmas state the route's properties about these functions.
- **A `Backend.Store` method.** It follows the handler's own steps on the
  mutable collections. Its contract ties the response and the new state to
  the function. It also keeps the store invariant `Valid()`: ObjectIds come
  from one generator, the `_id` indexes keep ids unique, and emails stay
  unique.

Several behaviours of the code are proved as they are, not "fixed":

- A doctor user without a profile reads every appointment but may change
  none.
- A status update has no transition guard, so it can re-activate a
  cancelled booking into a slot that has since been taken.
- Any authenticated user, including a doctor, can book.
- The `:id` of the profile update is ignored.
- The update body may reassign a profile's `user`.
- A doctor sign-up with missing profile fields is answered with a server
  error, yet the new user stays registered without a profile.

## Model

| member | source | states |
|---|---|---|
| Http.StatusCode | server/routes/appointments.js:83-96 | each error kind maps to its HTTP status: 404, 403, 400 for conflicts and bad credentials, and 500 exactly for a failed save |
| Seqs.FirstIndex | server/routes/appointments.js:16 | `findOne` finds the first document in natural order that matches, and finds none exactly when no document matches |
| Seqs.Filter | server/routes/appointments.js:22 | `find` keeps every matching document with its multiplicity and drops every other one |
| Seqs.FilterIsSubsequence | server/routes/doctors.js:18 | a `find` keeps the collection's order |
| Seqs.FilterKeepsAll | server/routes/doctors.js:12-18 | a query every document matches returns the whole collection |
| Text.Lower | client/src/pages/Doctors.js:50 | `toLowerCase` keeps the length and lowers every ASCII capital letter, position by position, leaving every other character as it is |
| Text.IncludesIffOccurs | client/src/pages/Doctors.js:50-51 | `includes` holds exactly when the term occurs at some position of the string |
| Text.IncludesEmpty | client/src/pages/Doctors.js:49-52 | every string includes the empty term |
| DoctorSchema.ParseDay | server/models/Doctor.js:26-29 | a slot day is accepted exactly when it is one of the seven lower-case weekday names, and then names that weekday |
| DoctorSchema.DayNameRoundTrip | server/models/Doctor.js:26-29 | every weekday's name is in the enum and parses back to that weekday |
| DoctorSchema.NewSlot | server/models/Doctor.js:25-36 | a stored slot keeps its day and times, and `isAvailable` is true unless false was supplied |
| DoctorSchema.NewDoctor | server/models/Doctor.js:3-44 | saving succeeds exactly when user, specialization, experience, education and fee are present and every slot day is in the enum; a failure names exactly the missing and invalid paths; a success keeps every supplied field, turns each slot into its stored form, and defaults rating and totalReviews to 0 |
| DoctorSchema.ProfileDefaults | server/models/Doctor.js:37-44 | a profile built from request fields has rating 0, no reviews and no slots, and belongs to the given user |
| DoctorSchema.RequiredFields | server/models/Doctor.js:4-24 | leaving out any one of the five required fields makes the save fail and names that field |
| AppointmentSchema.NewAppointment | server/routes/appointments.js:99-107 | a new appointment saves exactly when a reason is given; it is pending and carries the given patient, doctor, date, time and reason |
| AppointmentSchema.SortByDate | server/routes/appointments.js:32 | `.sort({ appointmentDate: 1 })` gives a permutation of its input in ascending date order |
| Doctors.FindDoctor | server/routes/doctors.js:31 | `findById` finds no profile exactly when no profile has the id; otherwise it finds a stored profile with that id |
| Doctors.ProfileOf | server/routes/doctors.js:51 | `findOne({ user })` finds no profile exactly when the user owns none; otherwise it finds a stored profile of that user |
| Doctors.List | server/routes/doctors.js:11-18 | the directory is an order-preserving subsequence of the profiles, holding exactly those that match the specialization filter |
| Doctors.ListWithoutFilter | server/routes/doctors.js:11-18 | with no specialization, or an empty one, every profile is listed in order |
| Doctors.ListWithFilter | server/routes/doctors.js:14-15 | with a specialization, a profile is listed exactly when the lower-cased term occurs in its lower-cased specialization |
| Doctors.SpecializationSearchExample | server/routes/doctors.js:11-18 | "cardio" finds a Cardiology profile and "dermat" finds nothing |
| Doctors.Get | server/routes/doctors.js:31-37 | NotFound exactly when no profile has the id; otherwise the stored profile with that id |
| Doctors.CreateProfile | server/routes/doctors.js:46-64 | a non-doctor gets Forbidden and a caller who owns a profile gets ProfileExists; a failure leaves the profiles unchanged; for a doctor without a profile the answer is exactly the validation of the request's fields, and a success appends that profile, owned by the caller |
| Doctors.CreateProfileStoresRequest | server/routes/doctors.js:56-64 | a doctor without a profile who supplies all four fields succeeds, and the stored profile carries the request's specialization, experience, education and fee, with rating 0, no reviews and no slots |
| Doctors.CreateProfileKeepsOneProfilePerUser | server/routes/doctors.js:51-64 | creating a profile keeps "at most one profile per user" |
| Doctors.ApplyPatch | server/routes/doctors.js:82-86 | an update never changes the id, and an empty body changes nothing |
| Doctors.ApplyPatchIdempotent | server/routes/doctors.js:82-86 | applying the same body twice equals applying it once |
| Doctors.PatchPaths | server/routes/doctors.js:82-86 | `runValidators` rejects exactly a supplied empty specialization or education, and names no other path |
| Doctors.UpdateProfile | server/routes/doctors.js:74-86 | Forbidden exactly for a non-doctor and NotFound exactly for a doctor without a profile. Validation fails exactly for an empty specialization or education. Failures change nothing. A success rewrites the caller's profile with the body |
| Doctors.UpdateIgnoresPathId | server/routes/doctors.js:74-83 | the result is the same whatever the `:id` path parameter |
| Doctors.UpdateTargetsOwnProfile | server/routes/doctors.js:76-86 | with unique ids, a success rewrites the first profile the caller owns and leaves every other profile unchanged |
| Doctors.UpdateCanBreakOneProfilePerUser | server/routes/doctors.js:82-86 | for any two profiles with different owners, a body setting `user` to the other owner succeeds, whatever the path id, and leaves two profiles with the same owner |
| Doctors.DoctorAppointments | server/routes/doctors.js:95-101 | exactly the appointments of the given doctor id, sorted by date, with no ownership check |
| Appointments.MayRead | server/routes/appointments.js:58-68 | a patient may read exactly their own records; a doctor may read their profile's records, and every record when they have no profile |
| Appointments.MayModify | server/routes/appointments.js:134-144 | a patient may modify exactly their own records; a doctor exactly their profile's records, and none without a profile; the delete route repeats the check at 174-184 |
| Appointments.ReadAndModifyChecks | server/routes/appointments.js:63-68 | the read check and the modify check differ exactly for a doctor without a profile, who may read but not modify |
| Appointments.ListQuery | server/routes/appointments.js:11-20 | a patient's query is their own id, a doctor with a profile's is that profile's id, and a doctor without a profile gets the empty query |
| Appointments.List | server/routes/appointments.js:9-32 | the list is sorted by date and holds exactly the appointments the caller's query matches, with their multiplicities |
| Appointments.ListScope | server/routes/appointments.js:11-22 | a patient sees exactly their own appointments and a doctor with a profile exactly that profile's; a doctor without a profile sees all of them |
| Appointments.Get | server/routes/appointments.js:41-70 | NotFound exactly when no record has the id; otherwise the first record with the id is answered exactly when the caller passes the read check, and Forbidden is the answer when not |
| Appointments.Book | server/routes/appointments.js:77-118 | the only answers are success, NotFound, SlotBooked and a failed save naming `reason`; a failure leaves the store unchanged; a success appends one pending record of the caller with the requested doctor, date, time and reason |
| Appointments.SlotTaken | server/routes/appointments.js:88-95 | the conflict query finds something exactly when a pending or confirmed record holds the same doctor, date and time |
| Appointments.BookOutcomes | server/routes/appointments.js:82-107 | NotFound exactly for an unknown doctor, and SlotBooked exactly when a pending or confirmed record holds the same doctor, date and time. Cancelled and completed records never block, and success needs a reason. A known doctor, a free slot and an empty reason give exactly the failed save naming `reason` (a 500) |
| Appointments.BookIgnoresRole | server/routes/appointments.js:77-105 | booking by a doctor user gives exactly what booking by a patient gives: no role check |
| Appointments.BookKeepsSingleBooking | server/routes/appointments.js:88-107 | booking keeps "at most one pending or confirmed booking per doctor, date and time" |
| Appointments.BookThenGet | server/routes/appointments.js:99-107 | a patient's new booking reads back as pending, with the requested reason and slot |
| Appointments.SetStatus | server/routes/appointments.js:125-159 | NotFound exactly when no record has the id, and failures change nothing. A success overwrites the status of the found record and nothing else of it |
| Appointments.SetStatusChangesOnlyTarget | server/routes/appointments.js:146-147 | with unique ids, only the target's status changes and every other record is untouched |
| Appointments.NoTransitionGuard | server/routes/appointments.js:127-147 | a caller who may modify the record can set any status |
| Appointments.ReactivationBreaksSingleBooking | server/routes/appointments.js:135-147 | in any store with unique ids and one active booking per slot, a caller who may modify a cancelled record whose slot another active record holds can set it back to pending, and the slot then has two active bookings |
| Appointments.Cancel | server/routes/appointments.js:166-187 | NotFound exactly when no record has the id, and failures change nothing. Otherwise the delete succeeds exactly when the caller passes the modify check, and a success removes the found record |
| Appointments.AccessChecksDecide | server/routes/appointments.js:58-70 | with unique ids, reading a stored record answers it exactly when the read check passes and deleting it succeeds exactly when the modify check passes; Forbidden otherwise (delete: 174-187) |
| Appointments.CancelRemovesTarget | server/routes/appointments.js:186 | a delete removes exactly the target record |
| Appointments.CancelKeepsSingleBooking | server/routes/appointments.js:186 | a delete keeps "at most one active booking per slot" |
| Appointments.CancelFreesSlot | server/routes/appointments.js:166-187 | after an active booking is deleted, the same doctor, date and time can be booked again |
| Appointments.PatientConfinedToOwnAppointments | server/routes/appointments.js:135-137 | a patient gets Forbidden from get, status update and delete on another patient's record, and nothing changes; the check repeats at 59-61 and 175-177 |
| Appointments.DoctorConfinedToOwnAppointments | server/routes/appointments.js:139-144 | a doctor with a profile gets Forbidden on another doctor's record from all three routes; the check repeats at 63-67 and 179-184 |
| Appointments.ProfilelessDoctorReadsAll | server/routes/appointments.js:63-68 | a doctor without a profile reads any record but gets Forbidden from status update and delete |
| Appointments.BookingScenario | server/routes/appointments.js:77-187 | a booking, a refused second booking of the slot, a confirmation and a delete, after which the patient's list is empty |
| Auth.FindUserByEmail | server/routes/auth.js:16 | no user is found exactly when no user has the email; otherwise a stored user with it is found |
| Auth.NewUser | server/routes/auth.js:22-30 | the saved user has the next id, the hashed password, the request's name and email, and role patient unless doctor was requested |
| Auth.Register | server/routes/auth.js:11-59 | UserExists exactly when the email is taken, and then nothing changes. Otherwise the new user is stored. Sign-up succeeds exactly when the email is new and, for a doctor, no profile field is missing; a success answers with the new user's token and summary. Any other failure is a doctor sign-up that names the missing fields |
| Auth.RegisterRole | server/routes/auth.js:27 | the stored role is the requested one, or patient when none is given |
| Auth.RegisterPairsDoctorProfile | server/routes/auth.js:35-45 | a successful doctor sign-up adds exactly one profile, owned by the new user and carrying the request's fields; any other successful sign-up adds none |
| Auth.RegisterLeavesUserWithoutProfile | server/routes/auth.js:32-45 | a doctor sign-up with a missing profile field gets status 500 while its user stays stored without a profile |
| Auth.RegisterKeepsUniqueEmails | server/routes/auth.js:16-32 | registration keeps emails unique |
| Auth.Login | server/routes/auth.js:66-94 | the only failure is InvalidCredentials; a success answers with the token and summary of a stored user with that email whose password matches |
| Auth.LoginOutcomes | server/routes/auth.js:71-80 | an unknown email and a wrong password give the same error; a matching password answers with that user's session |
| Auth.SummaryOmitsPassword | server/routes/auth.js:53-58 | the response's user carries id, name, email and role, and does not depend on the password |
| Auth.RegisterThenLogin | server/routes/auth.js:11-94 | logging in right after registering, with the same email and password, answers with the same session |
| DoctorSearch.FilteredDoctors | client/src/pages/Doctors.js:49-52 | the search result is an order-preserving subsequence holding exactly the doctors the term keeps |
| DoctorSearch.KeepsIffOccurs | client/src/pages/Doctors.js:50-51 | a doctor is kept exactly when the lower-cased term occurs in its lower-cased specialization or name |
| DoctorSearch.EmptySearchKeepsAll | client/src/pages/Doctors.js:49-52 | an empty search keeps every doctor in order |
| DoctorSearch.TimeOptionsAreWorkingHours | client/src/pages/Doctors.js:154-162 | the selectable times are the whole hours 9 to 17 except 13, each offered once and in increasing order |
| Backend.Store.ListAppointments | server/routes/appointments.js:9-34 | the handler's query, built field by field, answers with the list function's result |
| Backend.Store.GetAppointment | server/routes/appointments.js:41-70 | the handler answers as the get function does |
| Backend.Store.BookAppointment | server/routes/appointments.js:77-118 | the collections and response follow the booking function, the store stays valid, and a new id is consumed only by a success |
| Backend.Store.UpdateStatus | server/routes/appointments.js:125-159 | the appointments and response follow the status function, nothing else changes and the store stays valid |
| Backend.Store.CancelAppointment | server/routes/appointments.js:166-187 | the appointments and response follow the delete function, nothing else changes and the store stays valid |
| Backend.Store.ListDoctors | server/routes/doctors.js:9-22 | the handler's query answers with the directory function's result |
| Backend.Store.GetDoctor | server/routes/doctors.js:29-39 | the handler answers as the get function does |
| Backend.Store.CreateDoctorProfile | server/routes/doctors.js:46-67 | the profiles and response follow the create function, the store stays valid, and a new id is consumed only by a success |
| Backend.Store.UpdateDoctorProfile | server/routes/doctors.js:74-88 | the profiles and response follow the update function, nothing else changes and the store stays valid |
| Backend.Store.DoctorAppointments | server/routes/doctors.js:95-103 | the answer is the per-doctor list: exactly the appointments with that doctor id |
| Backend.Store.Register | server/routes/auth.js:11-59 | users, profiles and response follow the register function, appointments are untouched, emails stay unique |
| Backend.Store.Login | server/routes/auth.js:66-94 | the handler answers as the login function does and changes nothing |

## Left out

- JWT signing, the secret and the 7-day expiry: a token is its payload `Token(userId)`.
- The `auth` and `authorize` middleware: the authenticated caller is an input `User`. `Unauthorized` is not modelled. `authorize('doctor')` is modelled as `Forbidden` for any other role.
- `GET /auth/me`: it only echoes the caller that the middleware attached, so with the middleware left out there is nothing to state.
- Password hashing and `comparePassword`: they are the parameters `hash` and `matches`.
- Roles other than patient and doctor: the User schema, which is not part of this model, is taken to allow only these two, and `Role` has only them. The handlers test for `'patient'` and `'doctor'` only, so a third role would pass every ownership check and list every appointment; that pass-through is not modelled.
- The User schema: it is not part of this model. Saving a user is taken to succeed. Any email normalisation it may apply is not modelled: emails compare exactly.
- The Appointment schema: it is not part of this model. Its status is taken to range over pending, confirmed, cancelled and completed, with pending as the default. `reason` is taken to be required.
- Status strings outside those four values, and a status update whose body has no `status`: neither can be expressed.
- `populate` and `select`: responses carry the stored records, not the expanded references.
- Date parsing: `new Date(...)` is not modelled, and dates are integers. Appointment times are plain strings.
- Type casting: `Number` fields are integers. A malformed ObjectId or a non-numeric fee (a `CastError`) cannot be expressed.
- The schema's `timestamps`, `createdAt` and `updatedAt`.
- The catch-all 500 handlers: only the validation failures of `save` are modelled (as `ValidationFailed`). A store outage is not.
- The check-then-insert race between the slot check and the save of a booking: requests run one at a time, atomically.
- Server startup and the database connection.
- The React state, fetching, alerts and rendering of the client pages, and the Dashboard's client-side action gating.
- Doctors.List: the specialization filter is a `RegExp`; it is modelled as a case-insensitive substring test. Metacharacters and invalid patterns are not modelled. Case folding covers ASCII letters only.
- DoctorSearch.FilteredDoctors: `toLowerCase` is modelled for ASCII letters only.
- Text.Lower: only the capitals A to Z are lowered; JavaScript's `toLowerCase` also lowers non-ASCII capitals, which the model leaves unchanged.
- Doctors.UpdateProfile: among the update validators, only the required-string check on a supplied specialization or education is modelled. Setting a field to `null`, and an invalid `day` in a supplied slot list, cannot be expressed. A supplied slot list is taken in its stored form, so the `isAvailable: true` default that Mongoose fills in when it casts slots in an update is not modelled.
- Appointments.List: it fixes the order only up to records with equal dates, since MongoDB leaves their relative order unspecified. Doctors.DoctorAppointments is the same.
- ObjectIds: they come from a counter, `Backend.Store.nextId`. A booking or profile consumes one id on success, and a registration consumes two.
