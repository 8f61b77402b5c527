/**
 * Clients of the server.js handlers: what a caller can conclude from the
 * handlers' contracts alone about a sequence of requests.
 */
module Scenarios {
  import opened Optional
  import opened JsValues
  import opened Records
  import opened Sequences
  import opened CampCodes
  import opened Tables
  import ServerJs

  /** Registering a patient and fetching it by the returned id gives back the
      required fields as sent and each optional field as `|| null` left it. */
  method RegisterThenFetch(db: Store, body: PatientBody, now: int)
    returns (created: Response<PatientCreated>, fetched: Response<Patient>)
    requires db.Valid() && PatientAccepted(body)
    modifies db
    ensures created.Ok? && fetched.Ok?
    ensures fetched.payload.patient_id == created.payload.patient_id
    ensures fetched.payload.cols == NewPatientColumns(body, Some(now))
    ensures fetched.payload.cols.name == body.name
    ensures fetched.payload.cols.gender == body.gender && fetched.payload.cols.phone == body.phone
    ensures StoredOrNull(fetched.payload.cols.age, body.age)
    ensures StoredOrNull(fetched.payload.cols.camp_id, body.camp_id)
  {
    created := ServerJs.PostPatient(db, body, now, false);
    var row := Patient(created.payload.patient_id, NewPatientColumns(body, Some(now)));
    assert db.patients[|db.patients| - 1] == row;
    fetched := ServerJs.GetPatientById(db, created.payload.patient_id, false);
  }

  /** Deleting the same id twice: the first delete succeeds exactly when the
      patient existed, the second never does. */
  method DeleteTwice(db: Store, id: int)
    returns (first: Response<PatientDeleted>, second: Response<PatientDeleted>)
    requires db.Valid()
    modifies db
    ensures first.Ok? <==> HasPatient(old(db.patients), id)
    ensures first == NotFound <==> !HasPatient(old(db.patients), id)
    ensures second == NotFound
    ensures db.patients == WithoutPatient(old(db.patients), id)
  {
    first := ServerJs.DeletePatient(db, id, false);
    second := ServerJs.DeletePatient(db, id, false);
  }
  /** A fresh database: creating camp "Village A" gives camp id 1 and a
      `CAMP<year>-dddd` code; registering Asha at camp 1 gives patient id 1;
      listing camp 1 gives exactly that patient. */
  method FirstCampAndPatient(year: int, suffix: FourDigit, now: int)
    returns (camp: Response<CampCreated>, patient: Response<PatientCreated>, listed: Response<seq<Patient>>)
    requires 1000 <= year <= 9999
    ensures camp.Ok? && camp.payload.camp_id == 1
    ensures camp.payload.camp_code == Some(CampCode(year, suffix))
    ensures MatchesCampPattern(CampCode(year, suffix))
    ensures patient == Ok(PatientCreated(1))
    ensures listed.Ok? && |listed.payload| == 1 && listed.payload[0].patient_id == 1
  {
    var db := new Store([]);
    var campBody := CampBody(Str("Village A"), Undefined, Undefined);
    camp := ServerJs.PostCamp(db, campBody, year, suffix, now, false);
    FourDigitYearCodeMatchesPattern(year, suffix);
    var asha := PatientBody(
      Str("Asha"), Undefined, Undefined, Undefined, Undefined, Undefined,
      Str("F"), Str("9999999999"), Undefined, Undefined, Int(1));
    patient := ServerJs.PostPatient(db, asha, now, false);
    var row := db.patients[0];
    assert db.patients == [row] && row.patient_id == 1 && row.cols.camp_id == Int(1);
    listed := ServerJs.GetPatientsByCamp(db, 1, false);
    DescendingUnique(listed.payload, [row], PatientId);
  }
}
