/**
 * The admin dashboard's doctor list (medicare/frontend/js/admin_dashboard.js):
 * an in-memory array that the page seeds with three mock doctors and then
 * changes in place by adding, editing, approving and deleting entries.
 * Rendering, the form and the browser dialogs are not modelled; the answers
 * to `prompt` and `confirm` and the clock are parameters.
 */
module AdminDashboard {
  import opened Wrappers
  import Query

  datatype Status = Active | Pending

  datatype Doctor = Doctor(id: int, name: string, email: string, phone: string,
                           specialty: string, hospital: string, status: Status)

  /** `getMockDoctors()`. */
  function MockDoctors(): (ds: seq<Doctor>)
    ensures |ds| == 3
    ensures ds[0].id == 1 && ds[1].id == 2 && ds[2].id == 3
    ensures ds[0].status == Active && ds[1].status == Pending && ds[2].status == Active
  {
    [ Doctor(1, "Dr. John Smith", "john@hospital.com", "+1234567890", "Cardiology", "City Hospital", Active),
      Doctor(2, "Dr. Sarah Johnson", "sarah@clinic.com", "+1987654321", "Neurology", "Neuro Center", Pending),
      Doctor(3, "Dr. Mike Davis", "mike@health.com", "+1122334455", "Orthopedics", "Bone Clinic", Active) ]
  }

  /** `doctors.find(d => d.id === id)`, as the index of the doctor found. */
  function FindIndex(ds: seq<Doctor>, id: int): (r: Option<nat>)
    ensures r.Some? ==> r.value < |ds| && ds[r.value].id == id
    ensures r.Some? ==> forall j :: 0 <= j < r.value ==> ds[j].id != id
    ensures r.None? <==> forall j :: 0 <= j < |ds| ==> ds[j].id != id
  {
    Query.FirstIndex(ds, (d: Doctor) => d.id == id)
  }

  /** The answer of a `prompt` replaces a field only when it is truthy: a
      cancelled dialog (None) or an empty answer keeps the old value. */
  function Answer(answer: Option<string>, current: string): (r: string)
    ensures r == current || (answer == Some(r) && r != "")
    ensures answer.Some? && answer.value != "" ==> r == answer.value
  {
    if answer.Some? && answer.value != "" then answer.value else current
  }

  /** The list after `editDoctor(id)` with the two prompt answers. */
  function Edited(ds: seq<Doctor>, id: int, nameAnswer: Option<string>, emailAnswer: Option<string>): (r: seq<Doctor>)
    ensures |r| == |ds|
    ensures FindIndex(ds, id).None? ==> r == ds
    ensures FindIndex(ds, id).Some? ==>
      var k := FindIndex(ds, id).value;
      && (forall j :: 0 <= j < |ds| && j != k ==> r[j] == ds[j])
      && r[k] == ds[k].(name := Answer(nameAnswer, ds[k].name), email := Answer(emailAnswer, ds[k].email))
  {
    match FindIndex(ds, id)
    case None => ds
    case Some(k) =>
      var d := ds[k];
      ds[k := d.(name := Answer(nameAnswer, d.name), email := Answer(emailAnswer, d.email))]
  }

  /** The list after `approveDoctor(id)`. */
  function Approved(ds: seq<Doctor>, id: int): (r: seq<Doctor>)
    ensures |r| == |ds|
    ensures FindIndex(ds, id).None? ==> r == ds
    ensures FindIndex(ds, id).Some? ==>
      var k := FindIndex(ds, id).value;
      && (forall j :: 0 <= j < |ds| && j != k ==> r[j] == ds[j])
      && r[k] == ds[k].(status := Active)
  {
    match FindIndex(ds, id)
    case None => ds
    case Some(k) => ds[k := ds[k].(status := Active)]
  }

  /** Approving twice is approving once. */
  lemma ApproveIdempotent(ds: seq<Doctor>, id: int)
    ensures Approved(Approved(ds, id), id) == Approved(ds, id)
  {
    var once := Approved(ds, id);
    match FindIndex(ds, id)
    case None =>
    case Some(k) =>
      assert forall j :: 0 <= j < |ds| ==> once[j].id == ds[j].id;
      assert FindIndex(once, id) == Some(k);
  }

  /** The list after a confirmed `deleteDoctor(id)`:
      `doctors.filter(d => d.id !== id)`. */
  function Without(ds: seq<Doctor>, id: int): (r: seq<Doctor>)
    ensures forall d :: d in r <==> d in ds && d.id != id
    ensures FindIndex(ds, id).None? ==> r == ds
    ensures FindIndex(ds, id).Some? ==> |r| < |ds|
  {
    var r := Query.Filter(ds, (d: Doctor) => d.id != id);
    if FindIndex(ds, id).None? then
      Query.FilterAll(ds, (d: Doctor) => d.id != id);
      r
    else
      Query.FilterDrops(ds, (d: Doctor) => d.id != id, FindIndex(ds, id).value);
      r
  }

  /** Deleting keeps the surviving doctors in their original order: the
      result over a concatenation is the concatenation of the results. */
  lemma WithoutAppend(a: seq<Doctor>, b: seq<Doctor>, id: int)
    ensures Without(a + b, id) == Without(a, id) + Without(b, id)
  {
    Query.FilterAppend(a, b, (d: Doctor) => d.id != id);
  }

  /** The page's list of doctors. */
  class Dashboard {
    var doctors: seq<Doctor>

    /** The constructor seeds the list with `getMockDoctors()`. */
    constructor ()
      ensures doctors == MockDoctors()
    {
      doctors := MockDoctors();
    }

    /** `addDoctor()`: `unshift` a pending doctor whose id is the clock reading
        `now`; the old entries follow unchanged. */
    method AddDoctor(now: int, name: string, email: string, phone: string,
                     specialty: string, hospital: string)
      modifies this
      ensures doctors == [Doctor(now, name, email, phone, specialty, hospital, Pending)] + old(doctors)
      ensures |doctors| == |old(doctors)| + 1 && doctors[1..] == old(doctors)
    {
      var doctor := Doctor(now, name, email, phone, specialty, hospital, Pending);
      doctors := [doctor] + doctors;
    }

    /** `editDoctor(id)`, given what the two prompts return. */
    method EditDoctor(id: int, nameAnswer: Option<string>, emailAnswer: Option<string>)
      modifies this
      ensures doctors == Edited(old(doctors), id, nameAnswer, emailAnswer)
    {
      var found := FindIndex(doctors, id);
      if found.Some? {
        var k := found.value;
        var doctor := doctors[k];
        doctor := doctor.(name := Answer(nameAnswer, doctor.name));
        doctor := doctor.(email := Answer(emailAnswer, doctor.email));
        doctors := doctors[k := doctor];
      }
    }

    /** `approveDoctor(id)`. */
    method ApproveDoctor(id: int)
      modifies this
      ensures doctors == Approved(old(doctors), id)
    {
      var found := FindIndex(doctors, id);
      if found.Some? {
        var k := found.value;
        doctors := doctors[k := doctors[k].(status := Active)];
      }
    }

    /** `deleteDoctor(id)`, given the answer of the `confirm` dialog. */
    method DeleteDoctor(id: int, confirmed: bool)
      modifies this
      ensures doctors == if confirmed then Without(old(doctors), id) else old(doctors)
    {
      if confirmed {
        doctors := Without(doctors, id);
      }
    }
  }
}
