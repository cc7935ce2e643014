/**
 * The two routes of appointments.js: `/find-doctors` builds a parameterised
 * SELECT from the filters present in the query string, and `/book` inserts
 * an appointment for the caller's patient profile.
 */
module AppointmentsRoutes {
  import opened Wrappers
  import opened Text
  import opened Store

  // ---------------------------------------------------------------------------
  // /find-doctors

  // The base SELECT as the template literal holds it (its line breaks are
  // LF), one constant per source line; long lines are joined from shorter
  // pieces so that each can be checked on its own.
  const SelectLine := "            SELECT DISTINCT " + "u.name as doctor_name, "
    + "h.name as hospital_name, " + "d.specialization,\n"
  const SlotsStart := "                   GROUP_CONCAT(" + "CONCAT(dhs.day_of_week, ' ', "
  const SlotsTimes := "TIME_FORMAT(dhs.start_time, '%H:%i'), " + "'-', "
    + "TIME_FORMAT(dhs.end_time, '%H:%i'))) "
  const SlotsLine := SlotsStart + SlotsTimes + "as slots\n"
  const FromLine := "            FROM users u \n"
  const DoctorsLine := "            JOIN doctors d " + "ON u.id = d.user_id\n"
  const ScheduleLine := "            JOIN " + "doctor_hospital_schedule dhs " + "ON d.id = dhs.doctor_id\n"
  const HospitalsLine := "            JOIN hospitals h " + "ON dhs.hospital_id = h.id\n"
  const WhereLine := "            WHERE 1=1\n"
  const BaseQuery := "\n" + SelectLine + SlotsLine + FromLine + DoctorsLine + ScheduleLine
    + HospitalsLine + WhereLine + "        "

  const NameClause := " AND u.name LIKE ?"
  const HospitalClause := " AND h.name LIKE ?"
  const SpecializationClause := " AND d.specialization = ?"
  const GroupBy := " GROUP BY d.id"

  /** A query-string value the handler treats as given: present and not empty. */
  predicate Truthy(v: Option<string>) {
    v.Some? && v.value != ""
  }

  function Count(v: Option<string>): nat {
    if Truthy(v) then 1 else 0
  }

  /** `if (present) { query += clause; }` */
  function AddIf(query: string, present: bool, clause: string): string {
    if present then query + clause else query
  }

  /** The query text for the filters that are present. Its arguments are
      only which filters are present, so the values never reach the text. */
  function QueryText(byName: bool, byHospital: bool, bySpecialization: bool): string {
    AddIf(AddIf(AddIf(BaseQuery, byName, NameClause), byHospital, HospitalClause),
          bySpecialization, SpecializationClause)
    + GroupBy
  }

  /** A `LIKE` pattern matching any text that contains `v`. */
  function Contains(v: string): string {
    "%" + v + "%"
  }

  /** The bound values, one per filter that is present, in the order name,
      hospital, specialization. */
  function Params(name: Option<string>, hospital: Option<string>, specialization: Option<string>): (ps: seq<string>)
    ensures |ps| == Count(name) + Count(hospital) + Count(specialization)
    ensures Truthy(name) ==> ps[0] == Contains(name.value)
    ensures Truthy(hospital) ==> ps[Count(name)] == Contains(hospital.value)
    ensures Truthy(specialization) ==> ps[|ps| - 1] == specialization.value
  {
    (if Truthy(name) then [Contains(name.value)] else [])
    + (if Truthy(hospital) then [Contains(hospital.value)] else [])
    + (if Truthy(specialization) then [specialization.value] else [])
  }

  /** The `/find-doctors` builder: the text grows by one clause and the
      parameters by one value for each filter present; `date` is read but
      not used. */
  method FindDoctorsQuery(name: Option<string>, hospital: Option<string>, specialization: Option<string>,
                          date: Option<string>)
    returns (query: string, params: seq<string>)
    ensures query == QueryText(Truthy(name), Truthy(hospital), Truthy(specialization))
    ensures params == Params(name, hospital, specialization)
  {
    query := BaseQuery;
    params := [];
    if Truthy(name) {
      query := query + NameClause;
      params := params + [Contains(name.value)];
    }
    if Truthy(hospital) {
      query := query + HospitalClause;
      params := params + [Contains(hospital.value)];
    }
    if Truthy(specialization) {
      query := query + SpecializationClause;
      params := params + [specialization.value];
    }
    query := query + GroupBy;
  }

  lemma SelectFree()
    ensures '?' !in SelectLine
  {
  }

  lemma SlotsFree()
    ensures '?' !in SlotsStart && '?' !in SlotsTimes
  {
  }

  lemma JoinsFree()
    ensures '?' !in FromLine && '?' !in DoctorsLine && '?' !in ScheduleLine
    ensures '?' !in HospitalsLine && '?' !in WhereLine
  {
  }

  /** The base SELECT has no placeholder. */
  lemma BaseHasNoPlaceholder()
    ensures CountChar(BaseQuery, '?') == 0
  {
    SelectFree();
    SlotsFree();
    JoinsFree();
    assert '?' !in SlotsLine;
    assert '?' !in "\n" && '?' !in "        ";
    CountZeroIff(BaseQuery, '?');
  }

  /** Appending a clause with one placeholder adds one to the count. */
  lemma AddIfCount(query: string, present: bool, clause: string, stem: string)
    requires clause == stem + ['?'] && '?' !in stem
    ensures CountChar(AddIf(query, present, clause), '?') == CountChar(query, '?') + (if present then 1 else 0)
  {
    if present {
      CountAppendedOnce(stem, '?');
      CountCharAppend(query, clause, '?');
    }
  }

  /** Over any base text without placeholders, the clauses and the GROUP BY
      add one placeholder per filter present. */
  lemma {:induction false} ClausePlaceholders(base: string, byName: bool, byHospital: bool, bySpecialization: bool)
    requires CountChar(base, '?') == 0
    ensures CountChar(AddIf(AddIf(AddIf(base, byName, NameClause), byHospital, HospitalClause),
                            bySpecialization, SpecializationClause) + GroupBy, '?')
            == (if byName then 1 else 0) + (if byHospital then 1 else 0) + (if bySpecialization then 1 else 0)
  {
    var q1 := AddIf(base, byName, NameClause);
    AddIfCount(base, byName, NameClause, " AND u.name LIKE ");
    var q2 := AddIf(q1, byHospital, HospitalClause);
    AddIfCount(q1, byHospital, HospitalClause, " AND h.name LIKE ");
    var q3 := AddIf(q2, bySpecialization, SpecializationClause);
    AddIfCount(q2, bySpecialization, SpecializationClause, " AND d.specialization = ");
    assert '?' !in GroupBy;
    CountZeroIff(GroupBy, '?');
    CountCharAppend(q3, GroupBy, '?');
  }

  /** The query has exactly as many `?` placeholders as there are bound
      values, whichever filters are present. */
  lemma PlaceholdersMatchParams(name: Option<string>, hospital: Option<string>, specialization: Option<string>)
    ensures CountChar(QueryText(Truthy(name), Truthy(hospital), Truthy(specialization)), '?')
            == |Params(name, hospital, specialization)|
  {
    BaseHasNoPlaceholder();
    ClausePlaceholders(BaseQuery, Truthy(name), Truthy(hospital), Truthy(specialization));
  }

  // ---------------------------------------------------------------------------
  // /book

  const PatientNotFound := "Patient not found"
  const AppointmentBooked := "Appointment booked successfully"
  const ServerError := "Server error"

  datatype BookBody =
    | Message(message: string)
    | Failure(message: string, error: string)

  /** `/book`: store call 0 looks up the caller's patient profile, call 1
      inserts the appointment. Neither the doctor, the hospital nor the slot
      is checked. A failed call answers 500 with the error's message. */
  method Book(db: Database, fault: Fault, callerId: int, doctorId: int, hospitalId: int,
              date: int, time: TimeOfDay)
    returns (reply: Reply<BookBody>)
    requires db.Valid()
    modifies db`appointments, db`nextAppointmentId
    ensures db.Valid()
    ensures reply.status == 200 || reply.status == 404 || reply.status == 500
    ensures Fails(fault, 0) ==> reply == Reply(500, Failure(ServerError, fault.reason))
    ensures !Fails(fault, 0) && PatientOf(db.users, db.patients, callerId).None? ==>
              reply == Reply(404, Message(PatientNotFound))
    ensures !Fails(fault, 0) && PatientOf(db.users, db.patients, callerId).Some? && Fails(fault, 1) ==>
              reply == Reply(500, Failure(ServerError, fault.reason))
    ensures reply.status != 200 ==> db.appointments == old(db.appointments)
    ensures reply.status == 200 <==>
              !Fails(fault, 0) && PatientOf(db.users, db.patients, callerId).Some? && !Fails(fault, 1)
    ensures reply.status == 200 ==>
              reply == Reply(200, Message(AppointmentBooked))
              && db.appointments == old(db.appointments)
                   + [Appointment(old(db.nextAppointmentId), PatientOf(db.users, db.patients, callerId).value.id,
                                  doctorId, hospitalId, date, time)]
  {
    if Fails(fault, 0) {
      return Reply(500, Failure(ServerError, fault.reason));
    }
    var patientRow := PatientOf(db.users, db.patients, callerId);
    if patientRow.None? {
      return Reply(404, Message(PatientNotFound));
    }
    var patientId := patientRow.value.id;
    if Fails(fault, 1) {
      return Reply(500, Failure(ServerError, fault.reason));
    }
    var _ := db.InsertAppointment(patientId, doctorId, hospitalId, date, time);
    reply := Reply(200, Message(AppointmentBooked));
  }
}
