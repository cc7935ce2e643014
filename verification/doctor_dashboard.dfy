/**
 * The doctor dashboard's patient search (medicare/frontend/js/doctor_dashboard.js):
 * a fixed list of mock patients and a case-insensitive substring lookup that
 * reports the first patient whose name or e-mail contains the query. The
 * search only reads the list; rendering the card is not modelled.
 */
module DoctorDashboard {
  import opened Wrappers
  import opened Text
  import Query

  datatype Metrics = Metrics(weight: real, height: real, bmi: real, bloodSugar: real, bloodPressure: string)

  datatype Report = Report(title: string, date: string, status: string, file: string)

  datatype Patient = Patient(id: int, name: string, email: string, age: nat,
                             metrics: Metrics, reports: seq<Report>)

  /** `getMockPatients()`. */
  function MockPatients(): (ps: seq<Patient>)
    ensures |ps| == 2 && ps[0].id == 1 && ps[1].id == 2
  {
    [ Patient(1, "John Doe", "john@example.com", 35,
              Metrics(75.5, 175.0, 24.6, 95.0, "120/80"),
              [ Report("Blood Test Report", "2026-02-15", "normal", "blood_test.pdf"),
                Report("ECG Report", "2026-02-10", "normal", "ecg_report.pdf") ]),
      Patient(2, "Sarah Wilson", "sarah@example.com", 28,
              Metrics(62.0, 165.0, 22.8, 88.0, "115/75"), []) ]
  }

  /** The `find` callback: the lower-cased name or e-mail includes the query. */
  predicate Matches(p: Patient, query: string) {
    Includes(Lower(p.name), query) || Includes(Lower(p.email), query)
  }

  /** The index of the first patient matching `query`. */
  function FirstMatch(ps: seq<Patient>, query: string): (r: Option<nat>)
    ensures r.Some? ==> r.value < |ps| && Matches(ps[r.value], query)
    ensures r.Some? ==> forall j :: 0 <= j < r.value ==> !Matches(ps[j], query)
    ensures r.None? <==> forall j :: 0 <= j < |ps| ==> !Matches(ps[j], query)
  {
    Query.FirstIndex(ps, (p: Patient) => Matches(p, query))
  }

  datatype SearchResult =
    | NoQuery                    // the handler returns at once
    | Found(patient: Patient)    // the patient card is shown
    | NoResults(query: string)   // the "No patient found" panel is shown

  /** The lookup for an already normalised query. */
  function SearchFor(patients: seq<Patient>, query: string): (r: SearchResult)
    ensures r.NoQuery? <==> query == ""
    ensures r.Found? ==> exists k :: 0 <= k < |patients| && r.patient == patients[k]
                          && Matches(patients[k], query)
                          && forall j :: 0 <= j < k ==> !Matches(patients[j], query)
    ensures r.NoResults? ==> r.query == query
                             && forall j :: 0 <= j < |patients| ==> !Matches(patients[j], query)
  {
    if query == "" then NoQuery
    else match FirstMatch(patients, query)
      case Some(k) => Found(patients[k])
      case None => NoResults(query)
  }

  /** `searchPatients()`, given the raw value of the search input: the query
      is the input lower-cased and then trimmed, and an input that is only
      whitespace does nothing. */
  function SearchPatients(patients: seq<Patient>, input: string): (r: SearchResult)
    ensures r.NoQuery? <==> forall i :: 0 <= i < |input| ==> IsJsSpace(input[i])
    ensures r.Found? ==> exists k :: 0 <= k < |patients| && r.patient == patients[k]
                          && Matches(patients[k], Trim(Lower(input)))
                          && forall j :: 0 <= j < k ==> !Matches(patients[j], Trim(Lower(input)))
    ensures r.NoResults? ==> r.query == Trim(Lower(input))
                             && forall j :: 0 <= j < |patients| ==> !Matches(patients[j], r.query)
  {
    LowerKeepsSpaces(input);
    SearchFor(patients, Trim(Lower(input)))
  }

  /** The search ignores the case of the query. Both halves rest on the
      ASCII case mapping of `Lower` and `Upper`; outside ASCII,
      `toUpperCase` can change a string's length and this need not hold. */
  lemma SearchIgnoresQueryCase(patients: seq<Patient>, input: string)
    ensures SearchPatients(patients, Upper(input)) == SearchPatients(patients, input)
    ensures SearchPatients(patients, Lower(input)) == SearchPatients(patients, input)
  {
    LowerOfUpper(input);
    LowerIdempotent(input);
  }

  /** A patient matches when the trimmed, lower-cased query occurs somewhere
      in their lower-cased name or e-mail. */
  lemma MatchesIffOccurs(p: Patient, query: string)
    ensures Matches(p, query) <==> OccursIn(Lower(p.name), query) || OccursIn(Lower(p.email), query)
  {
    IncludesIffOccurs(Lower(p.name), query);
    IncludesIffOccurs(Lower(p.email), query);
  }
}
