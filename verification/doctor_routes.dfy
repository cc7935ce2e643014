/**
 * The doctor routes of doctor.js: a patient looked up by profile id, and the
 * calling doctor's appointments with the patient's and the hospital's names,
 * in date and time order. Both only read the store.
 *
 * The listing joins `users` on `a.patient_id = u.id`, but a booking stores the
 * id of the patient's `patients` row, not of their `users` row. The model
 * keeps that join as `NameByUserId`, shows what it lists, and answers with the
 * join through `patients` (`NameByPatientId`).
 */
module DoctorRoutes {
  import opened Wrappers
  import opened Store
  import Query

  const ServerError := "Server error"

  /** One row of the listing: `a.*`, `patient_name` and `hospital_name`. */
  datatype AppointmentView = AppointmentView(appointment: Appointment, patientName: string, hospitalName: string)

  datatype DoctorBody =
    | Message(message: string)
    | Empty                                            // `{}`
    | Found(name: string, email: string, patientId: Option<nat>)  // `patient_id` of `hm.*`
    | Listing(rows: seq<AppointmentView>)

  // ---------------------------------------------------------------------------
  // Joins

  /** `JOIN users u ON u.id = ?`: the user with the id. */
  function UserById(users: seq<User>, id: int): (r: Option<User>)
    ensures r.Some? <==> exists j :: 0 <= j < |users| && users[j].id == id
    ensures r.Some? ==> r.value in users && r.value.id == id
  {
    match Query.FirstIndex(users, (u: User) => u.id == id)
    case None => None
    case Some(j) => Some(users[j])
  }

  /** `JOIN hospitals h ON a.hospital_id = h.id`: the hospital's name. */
  function HospitalName(hospitals: seq<Hospital>, id: int): (r: Option<string>)
    ensures r.Some? <==> exists j :: 0 <= j < |hospitals| && hospitals[j].id == id
    ensures r.Some? ==> exists j :: 0 <= j < |hospitals| && hospitals[j].id == id && hospitals[j].name == r.value
  {
    match Query.FirstIndex(hospitals, (h: Hospital) => h.id == id)
    case None => None
    case Some(j) => Some(hospitals[j].name)
  }

  /** The join doctor.js writes, `JOIN users u ON a.patient_id = u.id`: the
      appointment's patient id taken as a users id. */
  function NameByUserId(users: seq<User>): int -> Option<string> {
    (patientId: int) => if UserById(users, patientId).Some? then Some(UserById(users, patientId).value.name) else None
  }

  /** The join through the patient profile: the patients row with the
      appointment's patient id, then the user owning it. */
  function NameByPatientId(users: seq<User>, patients: seq<PatientRow>): int -> Option<string> {
    (patientId: int) =>
      match Query.FirstIndex(patients, (p: PatientRow) => p.id == patientId)
      case None => None
      case Some(k) =>
        if UserById(users, patients[k].userId).Some? then Some(UserById(users, patients[k].userId).value.name)
        else None
  }

  /** `WHERE a.doctor_id = ?` and the two inner joins: the appointment is the
      doctor's and both its patient and its hospital resolve. */
  function Listed(hospitals: seq<Hospital>, doctorId: int, nameOf: int -> Option<string>): Appointment -> bool {
    (a: Appointment) => a.doctorId == doctorId && nameOf(a.patientId).Some? && HospitalName(hospitals, a.hospitalId).Some?
  }

  /** The rows of the join in table order: each listed appointment once, with
      the two names, and no other row. */
  function Rows(appointments: seq<Appointment>, hospitals: seq<Hospital>, doctorId: int,
                nameOf: int -> Option<string>): (r: seq<AppointmentView>)
    ensures |r| == |Query.Filter(appointments, Listed(hospitals, doctorId, nameOf))|
    ensures forall i :: 0 <= i < |r| ==>
              r[i].appointment == Query.Filter(appointments, Listed(hospitals, doctorId, nameOf))[i]
    ensures forall i :: 0 <= i < |r| ==>
              r[i].appointment in appointments && r[i].appointment.doctorId == doctorId
              && nameOf(r[i].appointment.patientId) == Some(r[i].patientName)
              && HospitalName(hospitals, r[i].appointment.hospitalId) == Some(r[i].hospitalName)
    ensures forall a :: a in appointments && a.doctorId == doctorId
                        && nameOf(a.patientId).Some? && HospitalName(hospitals, a.hospitalId).Some? ==>
              AppointmentView(a, nameOf(a.patientId).value, HospitalName(hospitals, a.hospitalId).value) in r
  {
    var listed := Query.Filter(appointments, Listed(hospitals, doctorId, nameOf));
    var r := seq(|listed|, i requires 0 <= i < |listed| =>
                 AppointmentView(listed[i], nameOf(listed[i].patientId).value,
                                 HospitalName(hospitals, listed[i].hospitalId).value));
    assert forall i :: 0 <= i < |r| ==> listed[i] in listed;
    EveryListedShown(appointments, hospitals, doctorId, nameOf, listed, r);
    r
  }

  /** Each appointment the filter keeps has its row among the views of the
      kept appointments. */
  lemma EveryListedShown(appointments: seq<Appointment>, hospitals: seq<Hospital>, doctorId: int,
                         nameOf: int -> Option<string>, listed: seq<Appointment>, r: seq<AppointmentView>)
    requires listed == Query.Filter(appointments, Listed(hospitals, doctorId, nameOf))
    requires |r| == |listed|
    requires forall i :: 0 <= i < |r| ==> r[i].appointment == listed[i]
                                          && nameOf(listed[i].patientId) == Some(r[i].patientName)
                                          && HospitalName(hospitals, listed[i].hospitalId) == Some(r[i].hospitalName)
    ensures forall a :: a in appointments && a.doctorId == doctorId
                        && nameOf(a.patientId).Some? && HospitalName(hospitals, a.hospitalId).Some? ==>
              AppointmentView(a, nameOf(a.patientId).value, HospitalName(hospitals, a.hospitalId).value) in r
  {
    forall a | a in appointments && a.doctorId == doctorId
               && nameOf(a.patientId).Some? && HospitalName(hospitals, a.hospitalId).Some?
      ensures AppointmentView(a, nameOf(a.patientId).value, HospitalName(hospitals, a.hospitalId).value) in r
    {
      assert Listed(hospitals, doctorId, nameOf)(a);
      var i :| 0 <= i < |listed| && listed[i] == a;
      assert r[i] == AppointmentView(a, nameOf(a.patientId).value, HospitalName(hospitals, a.hospitalId).value);
    }
  }

  // ---------------------------------------------------------------------------
  // GET /appointments

  /** The sort key of `ORDER BY a.appointment_date, a.appointment_time`. */
  function When(v: AppointmentView): int {
    v.appointment.date * 86400 + v.appointment.time
  }

  /** Rows sorted by `When` are in date order, and in time order within a day. */
  lemma {:induction false} WhenIsDateThenTime(rows: seq<AppointmentView>)
    requires Query.SortedBy(rows, When)
    ensures forall i, j :: 0 <= i < j < |rows| ==>
              rows[i].appointment.date < rows[j].appointment.date
              || (rows[i].appointment.date == rows[j].appointment.date
                  && rows[i].appointment.time <= rows[j].appointment.time)
  {
    forall i, j | 0 <= i < j < |rows|
      ensures rows[i].appointment.date < rows[j].appointment.date
              || (rows[i].appointment.date == rows[j].appointment.date
                  && rows[i].appointment.time <= rows[j].appointment.time)
    {
      assert When(rows[i]) <= When(rows[j]);
    }
  }

  /** `GET /appointments`: store call 0 finds the caller's doctors row and
      `doctorRows[0].id` throws when there is none; call 1 lists the doctor's
      appointments, oldest first. `nameOf` is the patient join: doctor.js
      passes `NameByUserId(users)`, the corrected handler
      `NameByPatientId(users, patients)`. */
  function GetAppointments(users: seq<User>, doctors: seq<DoctorRow>,
                           appointments: seq<Appointment>, hospitals: seq<Hospital>,
                           fault: Fault, callerId: int, nameOf: int -> Option<string>): (reply: Reply<DoctorBody>)
    ensures reply.status == 200 || reply.status == 500
    ensures reply.status == 500 ==> reply.body == Message(ServerError)
    ensures reply.status == 500 <==>
              Fails(fault, 0) || DoctorOf(users, doctors, callerId).None? || Fails(fault, 1)
    ensures reply.status == 200 ==>
              reply.body.Listing?
              && multiset(reply.body.rows)
                 == multiset(Rows(appointments, hospitals, DoctorOf(users, doctors, callerId).value.id, nameOf))
              && forall i, j :: 0 <= i < j < |reply.body.rows| ==>
                   reply.body.rows[i].appointment.date < reply.body.rows[j].appointment.date
                   || (reply.body.rows[i].appointment.date == reply.body.rows[j].appointment.date
                       && reply.body.rows[i].appointment.time <= reply.body.rows[j].appointment.time)
  {
    if Fails(fault, 0) then Reply(500, Message(ServerError))
    else match DoctorOf(users, doctors, callerId)
      case None => Reply(500, Message(ServerError))
      case Some(d) =>
        if Fails(fault, 1) then Reply(500, Message(ServerError))
        else
          var rows := Query.SortBy(Rows(appointments, hospitals, d.id, nameOf), When);
          WhenIsDateThenTime(rows);
          Reply(200, Listing(rows))
  }

  /** Without a doctor profile the reply is 500 whatever the appointments. */
  lemma NoDoctorProfileFails(users: seq<User>, doctors: seq<DoctorRow>, appointments: seq<Appointment>,
                             hospitals: seq<Hospital>, callerId: int, nameOf: int -> Option<string>)
    requires forall k :: 0 <= k < |doctors| ==> doctors[k].userId != callerId
    ensures GetAppointments(users, doctors, appointments, hospitals, Healthy, callerId, nameOf)
            == Reply(500, Message(ServerError))
  {
  }

  /** The patient id a booking stores, read back through the patient
      profile, names the user who booked. */
  lemma BookedUnderOwnName(users: seq<User>, patients: seq<PatientRow>, nextPatientId: nat, callerId: int)
    requires KeyedBelow(patients, PatientKey, nextPatientId)
    requires PatientOf(users, patients, callerId).Some?
    ensures UserById(users, callerId).Some?
    ensures NameByPatientId(users, patients)(PatientOf(users, patients, callerId).value.id)
            == Some(UserById(users, callerId).value.name)
  {
    var p := PatientOf(users, patients, callerId).value;
    var j :| 0 <= j < |patients| && patients[j] == p;
    var first := Query.FirstIndex(patients, (r: PatientRow) => r.id == p.id);
    assert first.Some?;
    KeysUnique(patients, PatientKey, nextPatientId, first.value, j);
  }

  /** An appointment booked by a caller, with the doctor and a hospital that
      exist, is listed to the doctor under the caller's name. */
  lemma BookingListedToDoctor(users: seq<User>, patients: seq<PatientRow>, nextPatientId: nat,
                              appointments: seq<Appointment>, hospitals: seq<Hospital>,
                              callerId: int, a: Appointment)
    requires KeyedBelow(patients, PatientKey, nextPatientId)
    requires PatientOf(users, patients, callerId).Some?
    requires a in appointments && a.patientId == PatientOf(users, patients, callerId).value.id
    requires HospitalName(hospitals, a.hospitalId).Some?
    ensures UserById(users, callerId).Some?
    ensures AppointmentView(a, UserById(users, callerId).value.name, HospitalName(hospitals, a.hospitalId).value)
            in Rows(appointments, hospitals, a.doctorId, NameByPatientId(users, patients))
  {
    BookedUnderOwnName(users, patients, nextPatientId, callerId);
  }

  /** The join as written lists a booking under whichever user's id equals the
      patient profile's id: Bob (user 2, profile 1) books, and the doctor sees
      Ann (user 1). */
  lemma AsWrittenListsWrongName()
    ensures var users := [User(1, "Ann", "a", None, Patient, None), User(2, "Bob", "b", None, Patient, None)];
            var patients := [PatientRow(1, 2)];
            PatientOf(users, patients, 2) == Some(PatientRow(1, 2))
            && NameByUserId(users)(1) == Some("Ann")
            && NameByPatientId(users, patients)(1) == Some("Bob")
  {
    var users := [User(1, "Ann", "a", None, Patient, None), User(2, "Bob", "b", None, Patient, None)];
    var patients := [PatientRow(1, 2)];
    assert Query.FirstIndex(users, (u: User) => u.id == 1) == Some(0);
    assert Query.FirstIndex(users, (u: User) => u.id == 2) == Some(1);
    assert Query.FirstIndex(patients, (p: PatientRow) => p.userId == 2) == Some(0);
    assert Query.FirstIndex(patients, (p: PatientRow) => p.id == 1) == Some(0);
  }

  /** The listing doctor.js sends for that booking: Bob (user 2, profile 1)
      books with doctor Cy (user 3) at hospital "H"; Cy's listing names Ann,
      and the listing through the profile names Bob. */
  lemma AsWrittenListingShowsAnn()
    ensures var users := [User(1, "Ann", "a", None, Patient, None), User(2, "Bob", "b", None, Patient, None),
                          User(3, "Cy", "c", None, Doctor, None)];
            var patients := [PatientRow(1, 2)];
            var doctors := [DoctorRow(1, 3, "", "")];
            var hospitals := [Hospital(1, "H", "", "")];
            var a := Appointment(1, 1, 1, 1, 0, 0);
            PatientOf(users, patients, 2) == Some(PatientRow(1, 2))
            && GetAppointments(users, doctors, [a], hospitals, Healthy, 3, NameByUserId(users))
               == Reply(200, Listing([AppointmentView(a, "Ann", "H")]))
            && GetAppointments(users, doctors, [a], hospitals, Healthy, 3, NameByPatientId(users, patients))
               == Reply(200, Listing([AppointmentView(a, "Bob", "H")]))
  {
    var users := [User(1, "Ann", "a", None, Patient, None), User(2, "Bob", "b", None, Patient, None),
                  User(3, "Cy", "c", None, Doctor, None)];
    var patients := [PatientRow(1, 2)];
    var doctors := [DoctorRow(1, 3, "", "")];
    var hospitals := [Hospital(1, "H", "", "")];
    var a := Appointment(1, 1, 1, 1, 0, 0);
    assert Query.FirstIndex(users, (u: User) => u.id == 1) == Some(0);
    assert Query.FirstIndex(users, (u: User) => u.id == 2) == Some(1);
    assert Query.FirstIndex(users, (u: User) => u.id == 3) == Some(2);
    assert Query.FirstIndex(patients, (p: PatientRow) => p.userId == 2) == Some(0);
    assert Query.FirstIndex(patients, (p: PatientRow) => p.id == 1) == Some(0);
    assert Query.FirstIndex(doctors, (d: DoctorRow) => d.userId == 3) == Some(0);
    assert Query.FirstIndex(hospitals, (h: Hospital) => h.id == 1) == Some(0);
    assert DoctorOf(users, doctors, 3) == Some(DoctorRow(1, 3, "", ""));
    OneRowListing(users, doctors, hospitals, 3, a, NameByUserId(users), "Ann");
    OneRowListing(users, doctors, hospitals, 3, a, NameByPatientId(users, patients), "Bob");
  }

  /** A doctor with a single listed appointment gets a one-row listing. */
  lemma OneRowListing(users: seq<User>, doctors: seq<DoctorRow>, hospitals: seq<Hospital>, callerId: int,
                      a: Appointment, nameOf: int -> Option<string>, name: string)
    requires DoctorOf(users, doctors, callerId).Some? && DoctorOf(users, doctors, callerId).value.id == a.doctorId
    requires nameOf(a.patientId) == Some(name) && HospitalName(hospitals, a.hospitalId).Some?
    ensures GetAppointments(users, doctors, [a], hospitals, Healthy, callerId, nameOf)
            == Reply(200, Listing([AppointmentView(a, name, HospitalName(hospitals, a.hospitalId).value)]))
  {
    var v := AppointmentView(a, name, HospitalName(hospitals, a.hospitalId).value);
    assert Query.Filter([a], Listed(hospitals, a.doctorId, nameOf)) == [a];
    var rows := Rows([a], hospitals, a.doctorId, nameOf);
    assert rows == [v];
    assert Query.SortBy(rows, When) == [v];
  }

  // ---------------------------------------------------------------------------
  // GET /search-patient/:patientId

  /** A `health_metrics` row of the patient profile exists. */
  predicate HasReading(metrics: seq<PatientMetric>, patientId: int) {
    exists m :: 0 <= m < |metrics| && metrics[m].patientId == patientId
  }

  /** `/search-patient`: the name and e-mail of the user owning the patient
      profile with the id, or `{}` when no profile with a user has it. The
      reply's `patient_id` is the column of `hm.*`, which comes after
      `p.id as patient_id` and replaces it: the profile id when the LEFT JOIN
      finds a reading, and NULL (None) when it finds none. */
  function SearchPatient(users: seq<User>, patients: seq<PatientRow>, metrics: seq<PatientMetric>,
                         fault: Fault, patientId: int)
    : (reply: Reply<DoctorBody>)
    ensures reply.status == 200 || reply.status == 500
    ensures reply.status == 500 <==> Fails(fault, 0)
    ensures reply.status == 500 ==> reply.body == Message(ServerError)
    ensures reply.status == 200 ==> reply.body.Empty? || reply.body.Found?
    ensures reply.status == 200 ==>
              (reply.body == Empty <==>
                 !exists i, j :: 0 <= i < |patients| && 0 <= j < |users|
                                 && patients[i].id == patientId && users[j].id == patients[i].userId)
    ensures reply.body.Found? ==>
              exists i, j :: 0 <= i < |patients| && 0 <= j < |users|
                             && patients[i].id == patientId && users[j].id == patients[i].userId
                             && reply.body.name == users[j].name && reply.body.email == users[j].email
    ensures reply.body.Found? ==>
              (reply.body.patientId.Some? <==> exists m :: 0 <= m < |metrics| && metrics[m].patientId == patientId)
              && (reply.body.patientId.Some? ==> reply.body.patientId.value == patientId)
  {
    if Fails(fault, 0) then Reply(500, Message(ServerError))
    else match Query.FirstIndex(patients, (p: PatientRow) => p.id == patientId && UserById(users, p.userId).Some?)
      case None => Reply(200, Empty)
      case Some(k) =>
        var u := UserById(users, patients[k].userId).value;
        Reply(200, Found(u.name, u.email, if HasReading(metrics, patients[k].id) then Some(patients[k].id) else None))
  }
}
