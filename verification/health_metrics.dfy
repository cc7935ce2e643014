/**
 * The health-metric handlers of
 * backend/src/controllers/healthMetricsController.js: the caller's latest
 * fifty readings, newest first, and the recording of one reading. The caller
 * is the `user_id` the authentication gate put on the request.
 */
module HealthMetrics {
  import opened Store
  import Query

  const Limit := 50
  const ServerError := "Server error"
  const MetricAdded := "Health metric added successfully"

  /** The replies. `Listing.data` holds whole rows: the SELECT lists nine
      columns and leaves out `user_id`, which every listed row shares with
      the caller, so each row's `userId` is the one column the real reply
      does not carry. */
  datatype MetricsBody =
    | Error(error: string)
    | Listing(success: bool, data: seq<HealthRecord>, count: nat)
    | Added(success: bool, message: string, healthId: nat)

  /** `WHERE user_id = ?`. */
  function OwnedBy(userId: int): HealthRecord -> bool {
    (r: HealthRecord) => r.userId == userId
  }

  /** The sort key of `ORDER BY recorded_at DESC`. */
  function Newest(r: HealthRecord): int {
    -r.recordedAt
  }

  /** The rows the SELECT of `getHealthMetrics` returns. */
  function Latest(records: seq<HealthRecord>, userId: int): (rows: seq<HealthRecord>)
    ensures |rows| <= Limit
    ensures |rows| == if |Query.Filter(records, OwnedBy(userId))| <= Limit
                      then |Query.Filter(records, OwnedBy(userId))| else Limit
    ensures forall i :: 0 <= i < |rows| ==> rows[i].userId == userId
    ensures forall i, j :: 0 <= i < j < |rows| ==> rows[i].recordedAt >= rows[j].recordedAt
    ensures multiset(rows) <= multiset(records)
    ensures |Query.Filter(records, OwnedBy(userId))| <= Limit ==>
              multiset(rows) == multiset(Query.Filter(records, OwnedBy(userId)))
  {
    var own := Query.Filter(records, OwnedBy(userId));
    var sorted := Query.SortBy(own, Newest);
    Query.SortByKeeps(own, Newest, OwnedBy(userId));
    var rows := Query.Take(sorted, Limit);
    Query.TakeSorted(sorted, Newest, Limit);
    NewestFirstOrder(rows);
    rows
  }

  /** Rows sorted by `Newest` go from the latest reading to the earliest. */
  lemma {:induction false} NewestFirstOrder(rows: seq<HealthRecord>)
    requires Query.SortedBy(rows, Newest)
    ensures forall i, j :: 0 <= i < j < |rows| ==> rows[i].recordedAt >= rows[j].recordedAt
  {
    forall i, j | 0 <= i < j < |rows| ensures rows[i].recordedAt >= rows[j].recordedAt {
      assert Newest(rows[i]) <= Newest(rows[j]);
    }
  }

  /** No reading of the caller that the list leaves out is newer than any
      reading the list shows. */
  lemma LatestKeepsNewest(records: seq<HealthRecord>, userId: int, x: HealthRecord)
    requires x in multiset(Query.Filter(records, OwnedBy(userId))) - multiset(Latest(records, userId))
    ensures forall i :: 0 <= i < |Latest(records, userId)| ==> Latest(records, userId)[i].recordedAt >= x.recordedAt
  {
    var sorted := Query.SortBy(Query.Filter(records, OwnedBy(userId)), Newest);
    Query.TakeSortedLeast(sorted, Newest, Limit, x);
  }

  /** A reading newer than all of the caller's earlier ones heads the list. */
  lemma NewReadingListedFirst(records: seq<HealthRecord>, r: HealthRecord)
    requires forall i :: 0 <= i < |records| && records[i].userId == r.userId ==> records[i].recordedAt < r.recordedAt
    ensures Latest(records + [r], r.userId) != [] && Latest(records + [r], r.userId)[0] == r
  {
    var all := records + [r];
    assert all[|records|] == r;
    var own := Query.Filter(all, OwnedBy(r.userId));
    assert r in own;
    Query.SortByHeadLeast(own, Newest);
  }

  /** `getHealthMetrics`: the list and its length as `count`, or a 500 when
      the SELECT (store call 0) fails. */
  function GetHealthMetrics(records: seq<HealthRecord>, fault: Fault, userId: int): (reply: Reply<MetricsBody>)
    ensures Fails(fault, 0) <==> reply == Reply(500, Error(ServerError))
    ensures !Fails(fault, 0) ==> reply.status == 200 && reply.body.Listing? && reply.body.success
                                 && reply.body.data == Latest(records, userId)
                                 && reply.body.count == |reply.body.data|
  {
    if Fails(fault, 0) then Reply(500, Error(ServerError))
    else
      var rows := Latest(records, userId);
      Reply(200, Listing(true, rows, |rows|))
  }

  /** A caller without readings gets a successful, empty list. */
  lemma NoReadingsEmptyList(records: seq<HealthRecord>, userId: int)
    requires forall i :: 0 <= i < |records| ==> records[i].userId != userId
    ensures GetHealthMetrics(records, Healthy, userId) == Reply(200, Listing(true, [], 0))
  {
    var own := Query.Filter(records, OwnedBy(userId));
    if own != [] {
      assert own[0] in records;
    }
  }

  /** `addHealthMetric`: the INSERT (store call 0) stores the caller's id and
      the submitted values as they are, the `bmi` sent by the client
      included, and the reply names the new row. */
  method AddHealthMetric(db: Database, fault: Fault, userId: int, weight: real, height: real,
                         bloodSugar: real, cholesterol: real, bpSystolic: int, bpDiastolic: int,
                         bmi: real, now: int)
    returns (reply: Reply<MetricsBody>)
    requires db.Valid()
    modifies db`healthRecords, db`nextHealthId
    ensures db.Valid()
    ensures Fails(fault, 0) ==> reply == Reply(500, Error(ServerError)) && db.healthRecords == old(db.healthRecords)
    ensures db.nextHealthId == if Fails(fault, 0) then old(db.nextHealthId) else old(db.nextHealthId) + 1
    ensures !Fails(fault, 0) ==>
              db.healthRecords == old(db.healthRecords)
                + [HealthRecord(old(db.nextHealthId), userId, weight, height, bloodSugar, cholesterol,
                                bpSystolic, bpDiastolic, bmi, now)]
              && reply == Reply(201, Added(true, MetricAdded, old(db.nextHealthId)))
  {
    if Fails(fault, 0) {
      return Reply(500, Error(ServerError));
    }
    var insertId := db.InsertRecord(userId, weight, height, bloodSugar, cholesterol,
                                    bpSystolic, bpDiastolic, bmi, now);
    reply := Reply(201, Added(true, MetricAdded, insertId));
  }
}
