/**
 * The rows of the three tables, the request bodies the handlers destructure,
 * the handlers' responses, and the pure part of the two POST handlers:
 * required-field validation and the `|| null` normalisation of what is stored.
 */
module Records {
  import opened Optional
  import opened JsValues

  /** What a handler sends back: a JSON payload, or the status of an error
      response (400, 404, or the 500 of every `catch` block). */
  datatype Response<T> = Ok(payload: T) | BadRequest | NotFound | ServerError

  /** The fields `POST /api/patients` reads out of `req.body`. */
  datatype PatientBody = PatientBody(
    name: Value, relative_name: Value, village: Value, panchayat: Value,
    union_name: Value, age: Value, gender: Value, phone: Value,
    reason: Value, doctor: Value, camp_id: Value)

  /** The columns an INSERT writes into `patients`. `created_at` is `None`
      when the INSERT does not name that column. */
  datatype PatientColumns = PatientColumns(
    name: Value, relative_name: Value, village: Value, panchayat: Value,
    union_name: Value, age: Value, gender: Value, phone: Value,
    reason: Value, doctor: Value, camp_id: Value, created_at: Option<int>)

  datatype Patient = Patient(patient_id: int, cols: PatientColumns)

  /** The fields `POST /api/camps` reads out of `req.body`. */
  datatype CampBody = CampBody(camp_name: Value, location: Value, camp_date: Value)

  /** The columns an INSERT writes into `camps`; `None` for a column the
      INSERT does not name. */
  datatype CampColumns = CampColumns(
    camp_code: Option<string>, camp_name: Value, camp_date: Value,
    location: Value, created_at: Option<int>)

  datatype Camp = Camp(camp_id: int, cols: CampColumns)

  /** A row of the read-only `doctors` table: its name and whatever other
      columns the table has. */
  datatype Doctor = Doctor(name: string, details: map<string, Value>)

  /** The payloads of the successful responses. */
  datatype PatientCreated = PatientCreated(patient_id: int)
  datatype CampCreated = CampCreated(
    camp_id: int, camp_name: Value, camp_date: Value, location: Value,
    camp_code: Option<string>)
  datatype PatientDeleted = PatientDeleted

  function PatientId(p: Patient): int { p.patient_id }
  function CampId(c: Camp): int { c.camp_id }

  /** The guard of `POST /api/patients`: `!name || !gender || !phone` rejects. */
  predicate PatientAccepted(b: PatientBody)
    ensures PatientAccepted(b) <==>
      OrNull(b.name) != Null && OrNull(b.gender) != Null && OrNull(b.phone) != Null
    ensures b.name in {Undefined, Null, Str("")} ==> !PatientAccepted(b)
  {
    !(IsFalsy(b.name) || IsFalsy(b.gender) || IsFalsy(b.phone))
  }

  /** The guard of `POST /api/camps`: `!camp_name` rejects. */
  predicate CampAccepted(b: CampBody)
    ensures CampAccepted(b) <==> OrNull(b.camp_name) != Null
    ensures b.camp_name in {Undefined, Null, Str("")} ==> !CampAccepted(b)
  {
    !IsFalsy(b.camp_name)
  }

  /** `stored` is what `sent || null` stores: null when `sent` is falsy,
      `sent` unchanged when it is truthy. */
  predicate StoredOrNull(stored: Value, sent: Value) {
    if IsFalsy(sent) then stored == Null else stored == sent
  }

  /** The parameters of the patients INSERT: `name` as sent, every other
      field through `|| null`. For an accepted body the required fields are
      truthy, so `gender || null` and `phone || null` store them unchanged. */
  function NewPatientColumns(b: PatientBody, createdAt: Option<int>): (c: PatientColumns)
    ensures c.name == b.name && c.created_at == createdAt
    ensures StoredOrNull(c.relative_name, b.relative_name) && StoredOrNull(c.village, b.village)
    ensures StoredOrNull(c.panchayat, b.panchayat) && StoredOrNull(c.union_name, b.union_name)
    ensures StoredOrNull(c.age, b.age) && StoredOrNull(c.reason, b.reason)
    ensures StoredOrNull(c.doctor, b.doctor) && StoredOrNull(c.camp_id, b.camp_id)
    ensures StoredOrNull(c.gender, b.gender) && StoredOrNull(c.phone, b.phone)
    ensures PatientAccepted(b) ==> c.gender == b.gender && c.phone == b.phone
  {
    PatientColumns(
      b.name, OrNull(b.relative_name), OrNull(b.village), OrNull(b.panchayat),
      OrNull(b.union_name), OrNull(b.age), OrNull(b.gender), OrNull(b.phone),
      OrNull(b.reason), OrNull(b.doctor), OrNull(b.camp_id), createdAt)
  }

  /** An age of 0 and a camp id of 0 are falsy and are stored as null; the
      string "0" is truthy and is stored as sent. */
  lemma ZeroAgeAndCampStoredAsNull(b: PatientBody, createdAt: Option<int>)
    requires b.age == Int(0) && b.camp_id == Int(0)
    ensures NewPatientColumns(b, createdAt).age == Null
    ensures NewPatientColumns(b, createdAt).camp_id == Null
    ensures NewPatientColumns(b.(age := Str("0")), createdAt).age == Str("0")
  {
  }

  /** The parameters of the camps INSERT: `camp_name` as sent,
      `location || null` and `camp_date || new Date()`. */
  function NewCampColumns(b: CampBody, code: Option<string>, now: int, createdAt: Option<int>): (c: CampColumns)
    ensures c.camp_code == code && c.camp_name == b.camp_name && c.created_at == createdAt
    ensures StoredOrNull(c.location, b.location)
    ensures !IsFalsy(c.camp_date)
    ensures c.camp_date == b.camp_date || c.camp_date == Date(now)
    ensures IsFalsy(b.camp_date) ==> c.camp_date == Date(now)
    ensures !IsFalsy(b.camp_date) ==> c.camp_date == b.camp_date
  {
    CampColumns(code, b.camp_name, Or(b.camp_date, Date(now)), OrNull(b.location), createdAt)
  }
}
