/**
 * The MySQL database both servers share, as an object whose tables the
 * handlers change in place: `patients` and `camps`, each with its
 * auto-increment counter, and the read-only `doctors`.
 */
module Tables {
  import opened JsValues
  import opened Records
  import opened Sequences

  /** Some row of `ps` has `patient_id` equal to `id`. */
  predicate HasPatient(ps: seq<Patient>, id: int) {
    exists p :: p in ps && p.patient_id == id
  }

  /** The rows of `WHERE patient_id = id`. */
  function PatientsWithId(ps: seq<Patient>, id: int): (r: seq<Patient>)
    ensures forall p :: p in r <==> p in ps && p.patient_id == id
    ensures StrictlyAscending(ps, PatientId) ==> StrictlyAscending(r, PatientId)
  {
    var keep := (p: Patient) => p.patient_id == id;
    FilterAscending(ps, keep, PatientId);
    Filter(ps, keep)
  }

  /** The rows that `DELETE FROM patients WHERE patient_id = id` leaves. */
  function WithoutPatient(ps: seq<Patient>, id: int): (r: seq<Patient>)
    ensures forall p :: p in r <==> p in ps && p.patient_id != id
    ensures StrictlyAscending(ps, PatientId) ==> StrictlyAscending(r, PatientId)
  {
    var keep := (p: Patient) => p.patient_id != id;
    FilterAscending(ps, keep, PatientId);
    Filter(ps, keep)
  }

  /** The rows of `WHERE camp_id = c`: a null `camp_id` matches no camp. */
  function PatientsOfCamp(ps: seq<Patient>, c: int): (r: seq<Patient>)
    ensures forall p :: p in r <==> p in ps && p.cols.camp_id == Int(c)
    ensures StrictlyAscending(ps, PatientId) ==> StrictlyAscending(r, PatientId)
  {
    var keep := (p: Patient) => p.cols.camp_id == Int(c);
    FilterAscending(ps, keep, PatientId);
    Filter(ps, keep)
  }

  /** A delete removes the rows with that id and no other row; with unique
      ids it affects one row when the id is present and none otherwise. */
  lemma WithoutPatientAffects(ps: seq<Patient>, id: int)
    requires StrictlyAscending(ps, PatientId)
    ensures forall p :: p in WithoutPatient(ps, id) <==> p in ps && p.patient_id != id
    ensures !HasPatient(WithoutPatient(ps, id), id)
    ensures |WithoutPatient(ps, id)| == |ps| - (if HasPatient(ps, id) then 1 else 0)
  {
    var keep := (p: Patient) => p.patient_id != id;
    if HasPatient(ps, id) {
      FilterDropsOne(ps, keep, PatientId, id);
    } else {
      FilterKeepsAllIff(ps, keep);
    }
  }

  /** A delete whose id no row has leaves the table as it is. */
  lemma {:induction false} WithoutAbsentPatient(ps: seq<Patient>, id: int)
    requires !HasPatient(ps, id)
    ensures WithoutPatient(ps, id) == ps
  {
    if ps != [] {
      assert ps == [ps[0]] + ps[1..];
      assert !HasPatient(ps[1..], id) by {
        forall p | p in ps[1..] ensures p.patient_id != id {
          assert p in ps;
        }
      }
      WithoutAbsentPatient(ps[1..], id);
    }
  }

  class Store {
    var patients: seq<Patient>
    var camps: seq<Camp>
    const doctors: seq<Doctor>
    /** The AUTO_INCREMENT values the next INSERT into each table assigns. */
    var nextPatientId: int
    var nextCampId: int

    /** Rows sit in insertion order, so ids ascend, and every id is positive
        and below its table's counter. */
    ghost predicate Valid()
      reads this
    {
      && 1 <= nextPatientId && 1 <= nextCampId
      && StrictlyAscending(patients, PatientId)
      && (forall p :: p in patients ==> 1 <= p.patient_id < nextPatientId)
      && StrictlyAscending(camps, CampId)
      && (forall c :: c in camps ==> 1 <= c.camp_id < nextCampId)
    }

    /** Empty `patients` and `camps` tables beside a given doctor list. */
    constructor (doctors: seq<Doctor>)
      ensures Valid()
      ensures patients == [] && camps == [] && this.doctors == doctors
      ensures nextPatientId == 1 && nextCampId == 1
    {
      patients, camps, this.doctors := [], [], doctors;
      nextPatientId, nextCampId := 1, 1;
    }

    /** INSERT INTO patients: the new row takes the next auto-increment id,
        which no existing row has. */
    method InsertPatient(cols: PatientColumns) returns (id: int)
      requires Valid()
      modifies this
      ensures Valid()
      ensures id == old(nextPatientId) && nextPatientId == id + 1
      ensures !HasPatient(old(patients), id)
      ensures patients == old(patients) + [Patient(id, cols)]
      ensures camps == old(camps) && nextCampId == old(nextCampId)
    {
      id := nextPatientId;
      patients := patients + [Patient(id, cols)];
      nextPatientId := nextPatientId + 1;
    }

    /** INSERT INTO camps: the new row takes the next auto-increment id. */
    method InsertCamp(cols: CampColumns) returns (id: int)
      requires Valid()
      modifies this
      ensures Valid()
      ensures id == old(nextCampId) && nextCampId == id + 1
      ensures forall c :: c in old(camps) ==> c.camp_id != id
      ensures camps == old(camps) + [Camp(id, cols)]
      ensures patients == old(patients) && nextPatientId == old(nextPatientId)
    {
      id := nextCampId;
      camps := camps + [Camp(id, cols)];
      nextCampId := nextCampId + 1;
    }

    /** DELETE FROM patients WHERE patient_id = id, and its `affectedRows`. */
    method DeletePatient(id: int) returns (affectedRows: int)
      requires Valid()
      modifies this`patients
      ensures Valid()
      ensures patients == WithoutPatient(old(patients), id)
      ensures affectedRows == |old(patients)| - |patients|
      ensures affectedRows == if HasPatient(old(patients), id) then 1 else 0
    {
      WithoutPatientAffects(patients, id);
      var before := |patients|;
      patients := WithoutPatient(patients, id);
      affectedRows := before - |patients|;
    }
  }
}
