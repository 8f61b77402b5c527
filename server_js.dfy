/**
 * The route handlers of server.js. Each takes the shared store, the parsed
 * request, and `storeFails`: whether the one SQL statement the handler
 * issues fails, which sends it to its `catch` block and a 500 response.
 * The clock (`new Date()`, `NOW()`) is the parameter `now`; the year and
 * the random camp-code suffix are parameters as well.
 */
module ServerJs {
  import opened Optional
  import opened JsValues
  import opened Records
  import opened Sequences
  import opened CampCodes
  import opened Tables

  /** The key `ORDER BY name ASC` sorts doctors by: the name's characters. */
  function NameKey(name: string): (k: seq<int>)
    ensures |k| == |name|
    ensures forall i :: 0 <= i < |name| ==> k[i] == name[i] as int
  {
    if name == [] then [] else [name[0] as int] + NameKey(name[1..])
  }

  function DoctorKey(d: Doctor): seq<int> {
    NameKey(d.name)
  }

  /** GET /api/patients: every patient, in descending `patient_id`. */
  method GetPatients(db: Store, storeFails: bool) returns (r: Response<seq<Patient>>)
    requires db.Valid()
    ensures r.Ok? <==> !storeFails
    ensures !r.Ok? ==> r == ServerError
    ensures r.Ok? ==> forall p :: p in r.payload <==> p in db.patients
    ensures r.Ok? ==> StrictlyDescending(r.payload, PatientId)
  {
    if storeFails {
      return ServerError;
    }
    ReverseMembers(db.patients);
    ReverseDescending(db.patients, PatientId);
    r := Ok(Reverse(db.patients));
  }

  /** POST /api/patients: 400 when `name`, `gender` or `phone` is falsy,
      before the store is touched; otherwise one INSERT, which either fails
      (500, nothing stored) or appends exactly one row under a fresh id and
      answers with that id. */
  method PostPatient(db: Store, body: PatientBody, now: int, storeFails: bool)
    returns (r: Response<PatientCreated>)
    requires db.Valid()
    modifies db
    ensures db.Valid()
    ensures !PatientAccepted(body) ==> r == BadRequest
    ensures PatientAccepted(body) && storeFails ==> r == ServerError
    ensures r.Ok? <==> PatientAccepted(body) && !storeFails
    ensures !r.Ok? ==> unchanged(db)
    ensures r.Ok? ==>
      && r.payload.patient_id == old(db.nextPatientId)
      && !HasPatient(old(db.patients), r.payload.patient_id)
      && db.patients == old(db.patients) + [Patient(r.payload.patient_id, NewPatientColumns(body, Some(now)))]
      && db.nextPatientId == r.payload.patient_id + 1
      && db.camps == old(db.camps) && db.nextCampId == old(db.nextCampId)
  {
    if !PatientAccepted(body) {
      return BadRequest;
    }
    if storeFails {
      return ServerError;
    }
    var id := db.InsertPatient(NewPatientColumns(body, Some(now)));
    r := Ok(PatientCreated(id));
  }

  /** GET /api/patients/:id: 404 exactly when no row has that id; otherwise
      the first row of the query, which is the only row with that id. */
  method GetPatientById(db: Store, id: int, storeFails: bool) returns (r: Response<Patient>)
    requires db.Valid()
    ensures storeFails <==> r == ServerError
    ensures !storeFails ==> (r == NotFound <==> !HasPatient(db.patients, id))
    ensures !storeFails ==> (r.Ok? <==> HasPatient(db.patients, id))
    ensures r.Ok? ==> r.payload in db.patients && r.payload.patient_id == id
    ensures r.Ok? ==> forall p :: p in db.patients && p.patient_id == id ==> p == r.payload
  {
    if storeFails {
      return ServerError;
    }
    var rows := PatientsWithId(db.patients, id);
    if |rows| == 0 {
      assert !HasPatient(db.patients, id) by {
        forall p | p in db.patients ensures p.patient_id != id {
          assert p.patient_id == id ==> p in rows;
        }
      }
      return NotFound;
    }
    assert rows[0] in rows;
    forall p | p in db.patients && p.patient_id == id
      ensures p == rows[0]
    {
      AscendingKeyIdentifies(db.patients, PatientId, p, rows[0]);
    }
    r := Ok(rows[0]);
  }

  /** GET /api/patients/camp/:camp_id: exactly the patients whose `camp_id`
      equals the argument, in descending `patient_id`. */
  method GetPatientsByCamp(db: Store, campId: int, storeFails: bool) returns (r: Response<seq<Patient>>)
    requires db.Valid()
    ensures r.Ok? <==> !storeFails
    ensures !r.Ok? ==> r == ServerError
    ensures r.Ok? ==> forall p :: p in r.payload <==> p in db.patients && p.cols.camp_id == Int(campId)
    ensures r.Ok? ==> StrictlyDescending(r.payload, PatientId)
  {
    if storeFails {
      return ServerError;
    }
    var rows := PatientsOfCamp(db.patients, campId);
    ReverseMembers(rows);
    ReverseDescending(rows, PatientId);
    r := Ok(Reverse(rows));
  }

  /** The list of a camp's patients is determined: any sequence that holds
      exactly the camp's patients in descending id is the handler's answer. */
  lemma PatientsByCampDetermined(ps: seq<Patient>, campId: int, answer: seq<Patient>)
    requires StrictlyAscending(ps, PatientId)
    requires forall p :: p in answer <==> p in ps && p.cols.camp_id == Int(campId)
    requires StrictlyDescending(answer, PatientId)
    ensures answer == Reverse(PatientsOfCamp(ps, campId))
  {
    var rows := PatientsOfCamp(ps, campId);
    ReverseMembers(rows);
    ReverseDescending(rows, PatientId);
    DescendingUnique(answer, Reverse(rows), PatientId);
  }

  /** POST /api/camps: 400 when `camp_name` is falsy, with no insert;
      otherwise the code `CAMP<year>-<n>` and one INSERT, which either fails
      (500, nothing stored) or appends one row, storing `location || null`
      and `camp_date || now`, while the response echoes the fields as sent. */
  method PostCamp(db: Store, body: CampBody, year: int, randomCode: FourDigit, now: int, storeFails: bool)
    returns (r: Response<CampCreated>)
    requires db.Valid()
    modifies db
    ensures db.Valid()
    ensures !CampAccepted(body) ==> r == BadRequest
    ensures CampAccepted(body) && storeFails ==> r == ServerError
    ensures r.Ok? <==> CampAccepted(body) && !storeFails
    ensures !r.Ok? ==> unchanged(db)
    ensures r.Ok? ==>
      var code := CampCode(year, randomCode);
      && r.payload == CampCreated(old(db.nextCampId), body.camp_name, body.camp_date, body.location, Some(code))
      && db.camps == old(db.camps) + [Camp(old(db.nextCampId), NewCampColumns(body, Some(code), now, Some(now)))]
      && db.nextCampId == old(db.nextCampId) + 1
      && db.patients == old(db.patients) && db.nextPatientId == old(db.nextPatientId)
  {
    if !CampAccepted(body) {
      return BadRequest;
    }
    var code := CampCode(year, randomCode);
    if storeFails {
      return ServerError;
    }
    var id := db.InsertCamp(NewCampColumns(body, Some(code), now, Some(now)));
    r := Ok(CampCreated(id, body.camp_name, body.camp_date, body.location, Some(code)));
  }

  /** GET /api/camps: every camp, in descending `camp_id`. */
  method GetCamps(db: Store, storeFails: bool) returns (r: Response<seq<Camp>>)
    requires db.Valid()
    ensures r.Ok? <==> !storeFails
    ensures !r.Ok? ==> r == ServerError
    ensures r.Ok? ==> forall c :: c in r.payload <==> c in db.camps
    ensures r.Ok? ==> StrictlyDescending(r.payload, CampId)
  {
    if storeFails {
      return ServerError;
    }
    ReverseMembers(db.camps);
    ReverseDescending(db.camps, CampId);
    r := Ok(Reverse(db.camps));
  }

  /** GET /api/doctors: every doctor, in ascending order of name. */
  method GetDoctors(db: Store, storeFails: bool) returns (r: Response<seq<Doctor>>)
    ensures r.Ok? <==> !storeFails
    ensures !r.Ok? ==> r == ServerError
    ensures r.Ok? ==> multiset(r.payload) == multiset(db.doctors)
    ensures r.Ok? ==> SortedByKey(r.payload, DoctorKey)
  {
    if storeFails {
      return ServerError;
    }
    r := Ok(SortByKey(db.doctors, DoctorKey));
  }

  /** DELETE /api/patients/:id: 404 exactly when no row was affected, that
      is when no patient has that id; otherwise that patient's row is gone
      and every other row is kept. A failed statement changes nothing. */
  method DeletePatient(db: Store, id: int, storeFails: bool) returns (r: Response<PatientDeleted>)
    requires db.Valid()
    modifies db
    ensures db.Valid()
    ensures storeFails ==> r == ServerError && unchanged(db)
    ensures !storeFails ==> (r == NotFound <==> !HasPatient(old(db.patients), id))
    ensures !storeFails ==> (r.Ok? <==> HasPatient(old(db.patients), id))
    ensures !storeFails ==> db.patients == WithoutPatient(old(db.patients), id)
    ensures r == NotFound ==> unchanged(db)
    ensures !storeFails ==> forall p :: p in db.patients <==> p in old(db.patients) && p.patient_id != id
    ensures !HasPatient(db.patients, id) || storeFails
    ensures db.camps == old(db.camps) && db.nextPatientId == old(db.nextPatientId)
    ensures db.nextCampId == old(db.nextCampId)
  {
    if storeFails {
      return ServerError;
    }
    WithoutPatientAffects(db.patients, id);
    var affectedRows := db.DeletePatient(id);
    if affectedRows == 0 {
      WithoutAbsentPatient(old(db.patients), id);
      return NotFound;
    }
    r := Ok(PatientDeleted);
  }
}
