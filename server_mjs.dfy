/**
 * The handlers of server.mjs that differ from server.js. Its
 * `GET /api/patients`, `GET /api/patients/:id`,
 * `GET /api/patients/camp/:camp_id` and `GET /api/doctors` are the same
 * statements with the same response mapping as the ServerJs handlers of the
 * same names. It has no `DELETE /api/patients/:id` route.
 */
module ServerMjs {
  import opened Optional
  import opened JsValues
  import opened Records
  import opened Sequences
  import opened Tables

  /** POST /api/camps: the same guard as server.js, but no camp code and no
      `created_at` in the INSERT, and no `camp_code` in the response. */
  method PostCamp(db: Store, body: CampBody, now: int, storeFails: bool)
    returns (r: Response<CampCreated>)
    requires db.Valid()
    modifies db
    ensures db.Valid()
    ensures !CampAccepted(body) ==> r == BadRequest
    ensures CampAccepted(body) && storeFails ==> r == ServerError
    ensures r.Ok? <==> CampAccepted(body) && !storeFails
    ensures !r.Ok? ==> unchanged(db)
    ensures r.Ok? ==>
      && r.payload == CampCreated(old(db.nextCampId), body.camp_name, body.camp_date, body.location, None)
      && db.camps == old(db.camps) + [Camp(old(db.nextCampId), NewCampColumns(body, None, now, None))]
      && db.nextCampId == old(db.nextCampId) + 1
      && db.patients == old(db.patients) && db.nextPatientId == old(db.nextPatientId)
  {
    if !CampAccepted(body) {
      return BadRequest;
    }
    if storeFails {
      return ServerError;
    }
    var id := db.InsertCamp(NewCampColumns(body, None, now, None));
    r := Ok(CampCreated(id, body.camp_name, body.camp_date, body.location, None));
  }

  /** The key that sorts camps by descending date: the negated instant. */
  function DateDescKey(dateKey: Value -> int, c: Camp): seq<int> {
    [-dateKey(c.cols.camp_date)]
  }

  /** GET /api/camps: every camp, ordered by descending `camp_date`.
      `dateKey` is the instant the database reads out of a stored
      `camp_date`; camps on the same date keep ascending `camp_id`. */
  method GetCamps(db: Store, dateKey: Value -> int, storeFails: bool) returns (r: Response<seq<Camp>>)
    ensures r.Ok? <==> !storeFails
    ensures !r.Ok? ==> r == ServerError
    ensures r.Ok? ==> multiset(r.payload) == multiset(db.camps)
    ensures r.Ok? ==> forall i, j :: 0 <= i < j < |r.payload| ==>
      dateKey(r.payload[i].cols.camp_date) >= dateKey(r.payload[j].cols.camp_date)
  {
    if storeFails {
      return ServerError;
    }
    var rows := SortByKey(db.camps, (c: Camp) => DateDescKey(dateKey, c));
    r := Ok(rows);
  }

  /** POST /api/patients: the same guard and the same `|| null`
      normalisation as server.js, but the INSERT does not name `created_at`. */
  method PostPatient(db: Store, body: PatientBody, storeFails: bool)
    returns (r: Response<PatientCreated>)
    requires db.Valid()
    modifies db
    ensures db.Valid()
    ensures !PatientAccepted(body) ==> r == BadRequest
    ensures PatientAccepted(body) && storeFails ==> r == ServerError
    ensures r.Ok? <==> PatientAccepted(body) && !storeFails
    ensures !r.Ok? ==> unchanged(db)
    ensures r.Ok? ==>
      && r.payload.patient_id == old(db.nextPatientId)
      && !HasPatient(old(db.patients), r.payload.patient_id)
      && db.patients == old(db.patients) + [Patient(r.payload.patient_id, NewPatientColumns(body, None))]
      && db.nextPatientId == r.payload.patient_id + 1
      && db.camps == old(db.camps) && db.nextCampId == old(db.nextCampId)
  {
    if !PatientAccepted(body) {
      return BadRequest;
    }
    if storeFails {
      return ServerError;
    }
    var id := db.InsertPatient(NewPatientColumns(body, None));
    r := Ok(PatientCreated(id));
  }

  /** The two servers store the same patient row but for `created_at`. */
  lemma PatientRowsDifferOnlyInCreatedAt(body: PatientBody, now: int)
    ensures NewPatientColumns(body, Some(now)).(created_at := None) == NewPatientColumns(body, None)
    ensures NewPatientColumns(body, Some(now)) != NewPatientColumns(body, None)
  {
  }
}
