/**
 * The admin routes of admin.js: a doctor account (a users row with role
 * doctor, then its doctors row), a hospital, and a doctor's weekly schedule
 * slot. Nothing is validated and the two inserts of a doctor are not in a
 * transaction.
 */
module AdminRoutes {
  import opened Wrappers
  import opened Store
  import Query

  const ServerError := "Server error"
  const DoctorAdded := "Doctor added successfully"
  const HospitalAdded := "Hospital added"
  const ScheduleAdded := "Schedule added successfully"

  datatype AdminBody =
    | Message(message: string)
    | NewDoctor(message: string, doctorId: nat)
    | NewHospital(message: string, hospitalId: nat)

  /** `POST /doctors`: store call 0 inserts the user with the hashed password
      and role doctor, call 1 the doctors row pointing at it. The reply's
      `doctor_id` is the users id. */
  method AddDoctor(db: Database, c: Crypto, fault: Fault, name: string, email: string, password: string,
                   specialization: string, phone: string)
    returns (reply: Reply<AdminBody>)
    requires db.Valid()
    modifies db`users, db`nextUserId, db`doctors, db`nextDoctorId
    ensures db.Valid()
    ensures Fails(fault, 0) ==>
              reply == Reply(500, Message(ServerError)) && db.users == old(db.users) && db.doctors == old(db.doctors)
    ensures !Fails(fault, 0) ==>
              db.users == old(db.users) + [User(old(db.nextUserId), name, email, Some(c.hash(password)), Doctor, None)]
    ensures !Fails(fault, 0) && Fails(fault, 1) ==>
              reply == Reply(500, Message(ServerError)) && db.doctors == old(db.doctors)
    ensures !Fails(fault, 0) && !Fails(fault, 1) ==>
              db.doctors == old(db.doctors) + [DoctorRow(old(db.nextDoctorId), old(db.nextUserId), specialization, phone)]
              && reply == Reply(200, NewDoctor(DoctorAdded, old(db.nextUserId)))
  {
    var hashedPassword := c.hash(password);
    if Fails(fault, 0) {
      return Reply(500, Message(ServerError));
    }
    var userId := db.InsertUser(name, email, Some(hashedPassword), Doctor, None);
    if Fails(fault, 1) {
      return Reply(500, Message(ServerError));
    }
    var _ := db.InsertDoctor(userId, specialization, phone);
    reply := Reply(200, NewDoctor(DoctorAdded, userId));
  }

  /** The doctor account `AddDoctor` creates is the caller the doctor routes
      resolve to its new doctors row. */
  lemma AddedDoctorResolves(users: seq<User>, doctors: seq<DoctorRow>, u: User, d: DoctorRow)
    requires KeyedBelow(users, UserKey, u.id) && d.userId == u.id
    requires forall k :: 0 <= k < |doctors| ==> doctors[k].userId != u.id
    ensures DoctorOf(users + [u], doctors + [d], u.id) == Some(d)
  {
    var ds := doctors + [d];
    assert ds[|doctors|] == d;
    var k := Query.FirstIndex(ds, (r: DoctorRow) => r.userId == u.id);
    assert k == Some(|doctors|);
    assert (users + [u])[|users|] == u;
  }

  /** `POST /hospitals`: one row, whose id the reply returns. */
  method AddHospital(db: Database, fault: Fault, name: string, address: string, phone: string)
    returns (reply: Reply<AdminBody>)
    requires db.Valid()
    modifies db`hospitals, db`nextHospitalId
    ensures db.Valid()
    ensures Fails(fault, 0) ==> reply == Reply(500, Message(ServerError)) && db.hospitals == old(db.hospitals)
    ensures !Fails(fault, 0) ==>
              db.hospitals == old(db.hospitals) + [Hospital(old(db.nextHospitalId), name, address, phone)]
              && reply == Reply(200, NewHospital(HospitalAdded, old(db.nextHospitalId)))
  {
    if Fails(fault, 0) {
      return Reply(500, Message(ServerError));
    }
    var hospitalId := db.InsertHospital(name, address, phone);
    reply := Reply(200, NewHospital(HospitalAdded, hospitalId));
  }

  /** `POST /schedule`: one row for any doctor, hospital and times, existing
      or not, and whatever the order of start and end. */
  method AddSchedule(db: Database, fault: Fault, doctorId: int, hospitalId: int, dayOfWeek: string,
                     startTime: string, endTime: string)
    returns (reply: Reply<AdminBody>)
    requires db.Valid()
    modifies db`schedules, db`nextScheduleId
    ensures db.Valid()
    ensures Fails(fault, 0) ==> reply == Reply(500, Message(ServerError)) && db.schedules == old(db.schedules)
    ensures !Fails(fault, 0) ==>
              db.schedules == old(db.schedules)
                + [ScheduleRow(old(db.nextScheduleId), doctorId, hospitalId, dayOfWeek, startTime, endTime)]
              && reply == Reply(200, Message(ScheduleAdded))
  {
    if Fails(fault, 0) {
      return Reply(500, Message(ServerError));
    }
    var _ := db.InsertSchedule(doctorId, hospitalId, dayOfWeek, startTime, endTime);
    reply := Reply(200, Message(ScheduleAdded));
  }
}
