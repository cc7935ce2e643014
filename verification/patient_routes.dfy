/**
 * The patient routes of patient.js: the caller's most recent health reading
 * and the recording of a new one. The caller's patient profile is found
 * through the patients and users tables; the BMI the POST stores is computed
 * from weight and height by a function left abstract.
 */
module PatientRoutes {
  import opened Wrappers
  import opened Store
  import Query

  const ServerError := "Server error"
  const PatientNotFound := "Patient not found"
  const MetricsUpdated := "Health metrics updated"

  datatype PatientBody =
    | Message(message: string)
    | Reading(metric: PatientMetric)     // `metrics[0]`
    | Empty                              // `{}`
    | Updated(message: string, bmi: string)

  /** `WHERE patient_id = ?`. */
  function OfPatient(patientId: int): PatientMetric -> bool {
    (m: PatientMetric) => m.patientId == patientId
  }

  /** The sort key of `ORDER BY measured_at DESC`. */
  function Newest(m: PatientMetric): int {
    -m.measuredAt
  }

  /** `ORDER BY measured_at DESC LIMIT 1`: a reading of the patient no other
      reading of theirs is newer than, or none when they have none. */
  function LatestReading(metrics: seq<PatientMetric>, patientId: int): (r: Option<PatientMetric>)
    ensures r.None? <==> forall i :: 0 <= i < |metrics| ==> metrics[i].patientId != patientId
    ensures r.Some? ==> r.value in metrics && r.value.patientId == patientId
    ensures r.Some? ==> forall i :: 0 <= i < |metrics| && metrics[i].patientId == patientId ==>
                          metrics[i].measuredAt <= r.value.measuredAt
  {
    var own := Query.Filter(metrics, OfPatient(patientId));
    var sorted := Query.SortBy(own, Newest);
    var rows := Query.Take(sorted, 1);
    if rows == [] then
      assert forall i :: 0 <= i < |metrics| ==> metrics[i] in metrics;
      None
    else
      NewestFirst(metrics, patientId, own, sorted);
      Some(rows[0])
  }

  /** The head of the patient's sorted readings is at least as recent as each
      of their readings in the table. */
  lemma {:induction false} NewestFirst(metrics: seq<PatientMetric>, patientId: int,
                                       own: seq<PatientMetric>, sorted: seq<PatientMetric>)
    requires own == Query.Filter(metrics, OfPatient(patientId)) && own != []
    requires sorted == Query.SortBy(own, Newest)
    ensures sorted[0] in metrics && sorted[0].patientId == patientId
    ensures forall i :: 0 <= i < |metrics| && metrics[i].patientId == patientId ==>
              metrics[i].measuredAt <= sorted[0].measuredAt
  {
    Query.SortByHeadLeast(own, Newest);
    forall i | 0 <= i < |metrics| && metrics[i].patientId == patientId
      ensures metrics[i].measuredAt <= sorted[0].measuredAt
    {
      assert OfPatient(patientId)(metrics[i]);
      assert metrics[i] in own;
      var k :| 0 <= k < |own| && own[k] == metrics[i];
      assert Newest(sorted[0]) <= Newest(own[k]);
    }
  }

  /** `GET /health-metrics`: store call 0 resolves the profile, call 1 reads
      the latest reading; `{}` when there is none. */
  function GetHealthMetrics(users: seq<User>, patients: seq<PatientRow>, metrics: seq<PatientMetric>,
                            fault: Fault, callerId: int): (reply: Reply<PatientBody>)
    ensures reply.status == 200 || reply.status == 404 || reply.status == 500
    ensures reply.status == 500 <==> Fails(fault, 0) || (PatientOf(users, patients, callerId).Some? && Fails(fault, 1))
    ensures reply.status == 500 ==> reply == Reply(500, Message(ServerError))
    ensures reply.status == 404 <==> !Fails(fault, 0) && PatientOf(users, patients, callerId).None?
    ensures reply.status == 404 ==> reply == Reply(404, Message(PatientNotFound))
    ensures reply.status == 200 ==>
              match LatestReading(metrics, PatientOf(users, patients, callerId).value.id)
              case None => reply.body == Empty
              case Some(m) => reply.body == Reading(m)
  {
    if Fails(fault, 0) then Reply(500, Message(ServerError))
    else match PatientOf(users, patients, callerId)
      case None => Reply(404, Message(PatientNotFound))
      case Some(p) =>
        if Fails(fault, 1) then Reply(500, Message(ServerError))
        else match LatestReading(metrics, p.id)
          case None => Reply(200, Empty)
          case Some(m) => Reply(200, Reading(m))
  }

  /** Without a profile the reply does not depend on the readings, nor on
      whether reading them would fail: they are never queried. */
  lemma NoProfileNoMetricsQuery(users: seq<User>, patients: seq<PatientRow>, m1: seq<PatientMetric>,
                                m2: seq<PatientMetric>, fault: Fault, callerId: int)
    requires PatientOf(users, patients, callerId).None? && !Fails(fault, 0)
    ensures GetHealthMetrics(users, patients, m1, fault, callerId)
            == GetHealthMetrics(users, patients, m2, Healthy, callerId)
            == Reply(404, Message(PatientNotFound))
  {
  }

  /** `POST /health-metrics`: the BMI is computed first, store call 0
      resolves the profile and `patientRows[0].id` throws when there is
      none, so nothing is inserted and the reply is 500; otherwise call 1
      inserts one reading. */
  method PostHealthMetrics(db: Database, fault: Fault, callerId: int, height: real, weight: real,
                           bloodSugar: real, cholesterol: real, bloodPressure: string,
                           bmiOf: (real, real) -> string, now: int)
    returns (reply: Reply<PatientBody>)
    requires db.Valid()
    modifies db`patientMetrics, db`nextHealthId
    ensures db.Valid()
    ensures reply.status == 200 || reply.status == 500
    ensures reply.status == 500 ==> reply == Reply(500, Message(ServerError)) && db.patientMetrics == old(db.patientMetrics)
    ensures db.nextHealthId == if reply.status == 200 then old(db.nextHealthId) + 1 else old(db.nextHealthId)
    ensures reply.status == 200 <==>
              !Fails(fault, 0) && PatientOf(db.users, db.patients, callerId).Some? && !Fails(fault, 1)
    ensures reply.status == 200 ==>
              db.patientMetrics == old(db.patientMetrics)
                + [PatientMetric(old(db.nextHealthId), PatientOf(db.users, db.patients, callerId).value.id,
                                 height, weight, bmiOf(weight, height), bloodSugar, cholesterol, bloodPressure, now)]
              && reply == Reply(200, Updated(MetricsUpdated, bmiOf(weight, height)))
  {
    var bmi := bmiOf(weight, height);
    if Fails(fault, 0) {
      return Reply(500, Message(ServerError));
    }
    var patientRow := PatientOf(db.users, db.patients, callerId);
    if patientRow.None? {
      return Reply(500, Message(ServerError));
    }
    var patientId := patientRow.value.id;
    if Fails(fault, 1) {
      return Reply(500, Message(ServerError));
    }
    var _ := db.InsertMetric(patientId, height, weight, bmi, bloodSugar, cholesterol, bloodPressure, now);
    reply := Reply(200, Updated(MetricsUpdated, bmi));
  }

  /** A reading posted later than all of the patient's earlier ones is the
      one the GET returns next. */
  lemma PostedReadingIsLatest(metrics: seq<PatientMetric>, m: PatientMetric)
    requires forall i :: 0 <= i < |metrics| && metrics[i].patientId == m.patientId ==>
               metrics[i].measuredAt < m.measuredAt
    ensures LatestReading(metrics + [m], m.patientId) == Some(m)
  {
    assert (metrics + [m])[|metrics|] == m;
  }
}
