/**
 * The MySQL tables the Express handlers read and write, held in memory:
 * every table is a sequence of rows in insertion order, and every
 * AUTO_INCREMENT key comes from a counter that only grows. The `Database`
 * object plays the part of the connection pool the handlers share.
 *
 * Also here: the abstract password hasher and token signer (bcrypt and
 * jsonwebtoken), the failure of a numbered store call (a rejected
 * `pool.execute`), and the shape of an HTTP reply.
 */
module Store {
  import opened Wrappers
  import Query

  datatype Role = Patient | Doctor | Admin

  /** A `users` row. `password` is NULL for accounts made by Google login,
      and `googleId` is NULL for the others. */
  datatype User = User(id: nat, name: string, email: string, password: Option<string>,
                       role: Role, googleId: Option<string>)

  /** The `user_id, name, email, role` columns: a users row without its password. */
  datatype UserView = UserView(id: nat, name: string, email: string, role: Role)

  function View(u: User): (v: UserView)
    ensures v.id == u.id && v.name == u.name && v.email == u.email && v.role == u.role
  {
    UserView(u.id, u.name, u.email, u.role)
  }

  datatype PatientRow = PatientRow(id: nat, userId: int)

  datatype DoctorRow = DoctorRow(id: nat, userId: int, specialization: string, phone: string)

  datatype Hospital = Hospital(id: nat, name: string, address: string, phone: string)

  datatype ScheduleRow = ScheduleRow(id: nat, doctorId: int, hospitalId: int, dayOfWeek: string,
                                     startTime: string, endTime: string)

  /** A clock time in seconds after midnight (a MySQL TIME of one day). */
  type TimeOfDay = t: int | 0 <= t < 86400

  /** An `appointments` row; `date` counts days. */
  datatype Appointment = Appointment(id: nat, patientId: int, doctorId: int, hospitalId: int,
                                     date: int, time: TimeOfDay)

  /** A `health_metrics` row as the health-metrics controller writes it. */
  datatype HealthRecord = HealthRecord(id: nat, userId: int, weight: real, height: real,
                                       bloodSugar: real, cholesterol: real, bpSystolic: int,
                                       bpDiastolic: int, bmi: real, recordedAt: int)

  /** A `health_metrics` row as the patient routes write it. */
  datatype PatientMetric = PatientMetric(id: nat, patientId: int, height: real, weight: real,
                                         bmi: string, bloodSugar: real, cholesterol: real,
                                         bloodPressure: string, measuredAt: int)

  // ---------------------------------------------------------------------------
  // Failures, replies and the foreign libraries

  /** Which store call of a handler rejects, counting the handler's calls of
      `execute` from 0 in the order it makes them, and the error's message. */
  datatype Fault = Healthy | FailsAt(step: nat, reason: string)

  predicate Fails(f: Fault, k: nat) {
    f.FailsAt? && f.step == k
  }

  /** An HTTP status and a JSON body of the handler's own shape. */
  datatype Reply<B> = Reply(status: nat, body: B)

  /** bcrypt's `hash`/`compare` and jsonwebtoken's `sign`/`verify` (of the
      payload `{ userId }`) as plain functions: salts, costs, secrets and
      expiry are not part of the model. */
  datatype Crypto = Crypto(hash: string -> string, compare: (string, string) -> bool,
                           sign: nat -> string, verify: string -> Option<nat>)

  /** What the handlers rely on: a password matches its own hash, a signed
      token verifies to its payload, and a token is one non-empty word. */
  ghost predicate Sound(c: Crypto) {
    (forall p :: c.compare(p, c.hash(p)))
    && (forall u: nat :: c.verify(c.sign(u)) == Some(u))
    && (forall u: nat :: c.sign(u) != [] && ' ' !in c.sign(u))
  }

  // ---------------------------------------------------------------------------
  // Lookups shared by several handlers

  /** `SELECT p.id FROM patients p JOIN users u ON p.user_id = u.id WHERE u.id = ?`:
      the first patient row of the user, when that user exists. */
  function PatientOf(users: seq<User>, patients: seq<PatientRow>, userId: int): (r: Option<PatientRow>)
    ensures r.Some? <==> (exists i :: 0 <= i < |users| && users[i].id == userId)
                         && exists k :: 0 <= k < |patients| && patients[k].userId == userId
    ensures r.Some? ==> r.value in patients && r.value.userId == userId
  {
    if Query.FirstIndex(users, (u: User) => u.id == userId).None? then None
    else match Query.FirstIndex(patients, (p: PatientRow) => p.userId == userId)
      case None => None
      case Some(k) => Some(patients[k])
  }

  /** `SELECT d.id FROM doctors d JOIN users u ON d.user_id = u.id WHERE u.id = ?`. */
  function DoctorOf(users: seq<User>, doctors: seq<DoctorRow>, userId: int): (r: Option<DoctorRow>)
    ensures r.Some? <==> (exists i :: 0 <= i < |users| && users[i].id == userId)
                         && exists k :: 0 <= k < |doctors| && doctors[k].userId == userId
    ensures r.Some? ==> r.value in doctors && r.value.userId == userId
  {
    if Query.FirstIndex(users, (u: User) => u.id == userId).None? then None
    else match Query.FirstIndex(doctors, (d: DoctorRow) => d.userId == userId)
      case None => None
      case Some(k) => Some(doctors[k])
  }

  // ---------------------------------------------------------------------------
  // Keys

  /** Every key is below the table's counter and keys grow along the table,
      so no two rows share a key. */
  predicate KeyedBelow<T>(rows: seq<T>, key: T -> nat, next: nat) {
    (forall i :: 0 <= i < |rows| ==> key(rows[i]) < next)
    && forall i, j :: 0 <= i < j < |rows| ==> key(rows[i]) < key(rows[j])
  }

  lemma KeyedAppend<T>(rows: seq<T>, key: T -> nat, next: nat, x: T)
    requires KeyedBelow(rows, key, next) && key(x) == next
    ensures KeyedBelow(rows + [x], key, next + 1)
  {
  }

  /** Two rows with the same key are the same row. */
  lemma KeysUnique<T>(rows: seq<T>, key: T -> nat, next: nat, i: nat, j: nat)
    requires KeyedBelow(rows, key, next)
    requires i < |rows| && j < |rows| && key(rows[i]) == key(rows[j])
    ensures i == j
  {
  }

  function UserKey(u: User): nat { u.id }
  function PatientKey(p: PatientRow): nat { p.id }
  function DoctorKey(d: DoctorRow): nat { d.id }
  function HospitalKey(h: Hospital): nat { h.id }
  function ScheduleKey(s: ScheduleRow): nat { s.id }
  function AppointmentKey(a: Appointment): nat { a.id }
  function RecordKey(r: HealthRecord): nat { r.id }
  function MetricKey(m: PatientMetric): nat { m.id }

  // ---------------------------------------------------------------------------
  // The store

  class Database {
    /** The value the `users.role` column takes when an INSERT leaves it out. */
    const defaultRole: Role

    var users: seq<User>
    var patients: seq<PatientRow>
    var doctors: seq<DoctorRow>
    var hospitals: seq<Hospital>
    var schedules: seq<ScheduleRow>
    var appointments: seq<Appointment>
    var healthRecords: seq<HealthRecord>
    var patientMetrics: seq<PatientMetric>

    var nextUserId: nat
    var nextPatientId: nat
    var nextDoctorId: nat
    var nextHospitalId: nat
    var nextScheduleId: nat
    var nextAppointmentId: nat
    /** `health_metrics` is one table written by two handlers: its rows are
        split by writer into `healthRecords` and `patientMetrics`, and both
        take their key from this one AUTO_INCREMENT counter. */
    var nextHealthId: nat

    ghost predicate Valid()
      reads this
    {
      KeyedBelow(users, UserKey, nextUserId)
      && KeyedBelow(patients, PatientKey, nextPatientId)
      && KeyedBelow(doctors, DoctorKey, nextDoctorId)
      && KeyedBelow(hospitals, HospitalKey, nextHospitalId)
      && KeyedBelow(schedules, ScheduleKey, nextScheduleId)
      && KeyedBelow(appointments, AppointmentKey, nextAppointmentId)
      && KeyedBelow(healthRecords, RecordKey, nextHealthId)
      && KeyedBelow(patientMetrics, MetricKey, nextHealthId)
      && forall i, j :: 0 <= i < |healthRecords| && 0 <= j < |patientMetrics| ==>
           healthRecords[i].id != patientMetrics[j].id
    }

    /** Empty tables whose keys start at 1. */
    constructor (defaultRole: Role)
      ensures Valid()
      ensures this.defaultRole == defaultRole
      ensures users == [] && patients == [] && doctors == [] && hospitals == []
      ensures schedules == [] && appointments == [] && healthRecords == [] && patientMetrics == []
    {
      this.defaultRole := defaultRole;
      users, patients, doctors, hospitals := [], [], [], [];
      schedules, appointments, healthRecords, patientMetrics := [], [], [], [];
      nextUserId, nextPatientId, nextDoctorId, nextHospitalId := 1, 1, 1, 1;
      nextScheduleId, nextAppointmentId, nextHealthId := 1, 1, 1;
    }

    /** `INSERT INTO users`; `id` is the statement's `insertId`. */
    method InsertUser(name: string, email: string, password: Option<string>, role: Role,
                      googleId: Option<string>) returns (id: nat)
      requires Valid()
      modifies this`users, this`nextUserId
      ensures Valid()
      ensures id == old(nextUserId) && nextUserId == id + 1
      ensures users == old(users) + [User(id, name, email, password, role, googleId)]
      ensures forall i :: 0 <= i < |old(users)| ==> old(users)[i].id < id
    {
      id := nextUserId;
      KeyedAppend(users, UserKey, nextUserId, User(id, name, email, password, role, googleId));
      users := users + [User(id, name, email, password, role, googleId)];
      nextUserId := nextUserId + 1;
    }

    /** `INSERT INTO patients (user_id)`. */
    method InsertPatient(userId: int) returns (id: nat)
      requires Valid()
      modifies this`patients, this`nextPatientId
      ensures Valid()
      ensures id == old(nextPatientId) && nextPatientId == id + 1
      ensures patients == old(patients) + [PatientRow(id, userId)]
    {
      id := nextPatientId;
      KeyedAppend(patients, PatientKey, nextPatientId, PatientRow(id, userId));
      patients := patients + [PatientRow(id, userId)];
      nextPatientId := nextPatientId + 1;
    }

    /** `INSERT INTO doctors (user_id, specialization, phone)`. */
    method InsertDoctor(userId: int, specialization: string, phone: string) returns (id: nat)
      requires Valid()
      modifies this`doctors, this`nextDoctorId
      ensures Valid()
      ensures id == old(nextDoctorId) && nextDoctorId == id + 1
      ensures doctors == old(doctors) + [DoctorRow(id, userId, specialization, phone)]
    {
      id := nextDoctorId;
      KeyedAppend(doctors, DoctorKey, nextDoctorId, DoctorRow(id, userId, specialization, phone));
      doctors := doctors + [DoctorRow(id, userId, specialization, phone)];
      nextDoctorId := nextDoctorId + 1;
    }

    /** `INSERT INTO hospitals (name, address, phone)`. */
    method InsertHospital(name: string, address: string, phone: string) returns (id: nat)
      requires Valid()
      modifies this`hospitals, this`nextHospitalId
      ensures Valid()
      ensures id == old(nextHospitalId) && nextHospitalId == id + 1
      ensures hospitals == old(hospitals) + [Hospital(id, name, address, phone)]
    {
      id := nextHospitalId;
      KeyedAppend(hospitals, HospitalKey, nextHospitalId, Hospital(id, name, address, phone));
      hospitals := hospitals + [Hospital(id, name, address, phone)];
      nextHospitalId := nextHospitalId + 1;
    }

    /** `INSERT INTO doctor_hospital_schedule`. */
    method InsertSchedule(doctorId: int, hospitalId: int, dayOfWeek: string,
                          startTime: string, endTime: string) returns (id: nat)
      requires Valid()
      modifies this`schedules, this`nextScheduleId
      ensures Valid()
      ensures id == old(nextScheduleId) && nextScheduleId == id + 1
      ensures schedules == old(schedules) + [ScheduleRow(id, doctorId, hospitalId, dayOfWeek, startTime, endTime)]
    {
      id := nextScheduleId;
      var row := ScheduleRow(id, doctorId, hospitalId, dayOfWeek, startTime, endTime);
      KeyedAppend(schedules, ScheduleKey, nextScheduleId, row);
      schedules := schedules + [row];
      nextScheduleId := nextScheduleId + 1;
    }

    /** `INSERT INTO appointments`. */
    method InsertAppointment(patientId: int, doctorId: int, hospitalId: int,
                             date: int, time: TimeOfDay) returns (id: nat)
      requires Valid()
      modifies this`appointments, this`nextAppointmentId
      ensures Valid()
      ensures id == old(nextAppointmentId) && nextAppointmentId == id + 1
      ensures appointments == old(appointments) + [Appointment(id, patientId, doctorId, hospitalId, date, time)]
    {
      id := nextAppointmentId;
      var row := Appointment(id, patientId, doctorId, hospitalId, date, time);
      KeyedAppend(appointments, AppointmentKey, nextAppointmentId, row);
      appointments := appointments + [row];
      nextAppointmentId := nextAppointmentId + 1;
    }

    /** `INSERT INTO health_metrics` by the health-metrics controller;
        `recorded_at` takes the store's clock, `now`. */
    method InsertRecord(userId: int, weight: real, height: real, bloodSugar: real,
                        cholesterol: real, bpSystolic: int, bpDiastolic: int, bmi: real,
                        now: int) returns (id: nat)
      requires Valid()
      modifies this`healthRecords, this`nextHealthId
      ensures Valid()
      ensures id == old(nextHealthId) && nextHealthId == id + 1
      ensures healthRecords == old(healthRecords)
                + [HealthRecord(id, userId, weight, height, bloodSugar, cholesterol,
                                bpSystolic, bpDiastolic, bmi, now)]
    {
      id := nextHealthId;
      var row := HealthRecord(id, userId, weight, height, bloodSugar, cholesterol,
                              bpSystolic, bpDiastolic, bmi, now);
      KeyedAppend(healthRecords, RecordKey, nextHealthId, row);
      healthRecords := healthRecords + [row];
      nextHealthId := nextHealthId + 1;
    }

    /** `INSERT INTO health_metrics` by the patient routes; `measured_at`
        takes the store's clock, `now`. */
    method InsertMetric(patientId: int, height: real, weight: real, bmi: string,
                        bloodSugar: real, cholesterol: real, bloodPressure: string,
                        now: int) returns (id: nat)
      requires Valid()
      modifies this`patientMetrics, this`nextHealthId
      ensures Valid()
      ensures id == old(nextHealthId) && nextHealthId == id + 1
      ensures patientMetrics == old(patientMetrics)
                + [PatientMetric(id, patientId, height, weight, bmi, bloodSugar, cholesterol,
                                 bloodPressure, now)]
    {
      id := nextHealthId;
      var row := PatientMetric(id, patientId, height, weight, bmi, bloodSugar, cholesterol,
                               bloodPressure, now);
      KeyedAppend(patientMetrics, MetricKey, nextHealthId, row);
      patientMetrics := patientMetrics + [row];
      nextHealthId := nextHealthId + 1;
    }
  }
}
