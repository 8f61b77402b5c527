# Camp and patient records service, verified model

This project models the record-handling core of a small medical-outreach
backend. The service keeps *camps* (temporary clinic events), *patients*
registered at them, and a read-only *doctor* directory in a MySQL database.
It exposes them through Express route handlers in two near-duplicate entry
points, `server.js` and `server.mjs`.

The model states each handler as an operation on one shared store. The store
is a `Tables.Store` object. Its `patients` and `camps` tables are sequences
that the handlers change in place. Each table has an auto-increment counter,
and `doctors` is read-only. Every handler answers with a `Records.Response`:
`Ok(payload)`, `BadRequest` (400), `NotFound` (404) or `ServerError` (500).

The pure parts of the handlers are functions with proved contracts:

- JavaScript falsiness and `x || y`, in `JsValues`.
- The required-field guards and the `|| null` normalisation of what is
  stored, in `Records`.
- The camp code `CAMP<year>-<n>` with a parser that reads it back, in
  `CampCodes`.
- What `WHERE`, `ORDER BY id DESC` and `ORDER BY key ASC` do to a table, in
  `Sequences`.

The handlers of `server.js` are in `ServerJs`. The handlers of `server.mjs`
that differ from them are in `ServerMjs`:

- camps without a code;
- camps listed by date;
- no `created_at` on insert.

The `server.mjs` handlers for `GET /api/patients`, `GET /api/patients/:id`,
`GET /api/patients/camp/:camp_id` and `GET /api/doctors` issue the same
statements as their `server.js` counterparts (server.mjs:84-92, 147-161,
66-77, 166-174). The `ServerJs` members of the same names model them.
`server.mjs` has no delete route.

`Scenarios` holds clients of the handlers:

- register a patient, then fetch it;
- delete the same id twice;
- on a fresh database, create a camp, register a patient there, then list
  that camp's patients.

The environment becomes parameters:

- `storeFails`: whether the handler's one SQL statement fails and lands in
  its `catch` block;
- `now`: the clock;
- `year`: the year;
- `randomCode`: the random four-digit camp-code suffix.

One consequence of the `|| null` normalisation: an `age` of 0 and a
`camp_id` of 0 are falsy, so both are stored as null. The string "0" is
truthy and is stored as sent.

## Model

| member | source | states |
|---|---|---|
| JsValues.IsFalsy | server.js:53 | the falsy values are exactly undefined, null, false, 0 and the empty string; a Date is truthy |
| JsValues.Or | server.js:138 | `a || b` is `a` when `a` is truthy and `b` when `a` is falsy |
| JsValues.OrNull | server.js:65-75 | `v || null` is null exactly when `v` is falsy, is `v` unchanged when `v` is truthy, and is never a falsy non-null value |
| JsValues.ZeroIsFalsyButStringZeroIsNot | server.js:69 | 0 and "" normalise to null; "0" is kept |
| Records.PatientAccepted | server.js:53-57 | a patient is accepted exactly when none of `name`, `gender`, `phone` would normalise to null; a missing, null or empty `name` is rejected |
| Records.CampAccepted | server.js:125-127 | a camp is accepted exactly when `camp_name` would not normalise to null; a missing, null or empty name is rejected |
| Records.NewPatientColumns | server.js:59-75 | the stored patient row: `name` as sent, every optional field null exactly when falsy and unchanged otherwise; for an accepted body `gender` and `phone` are stored as sent |
| Records.ZeroAgeAndCampStoredAsNull | server.js:69-74 | `age` 0 and `camp_id` 0 are stored as null, while `age` "0" is stored as sent |
| Records.NewCampColumns | server.js:135-138 | the stored camp row: `camp_name` as sent, `location` null exactly when falsy, `camp_date` the sent value when truthy and `now` when falsy |
| CampCodes.NatToString | server.js:133 | the decimal numeral of `n` is a non-empty string of digits that denotes `n` |
| CampCodes.IntToString | server.js:133 | `${year}` starts with '-' exactly for a negative year; the digits denote the year, or its magnitude after the sign |
| CampCodes.FourDigitNumeral | server.js:132-133 | a suffix between 1000 and 9999 is written with exactly four digits |
| CampCodes.CampCode | server.js:130-133 | every code starts with "CAMP" and ends with '-' followed by four digits that denote the random suffix |
| CampCodes.FourDigitYearCodeMatchesPattern | server.js:130-133 | for a four-digit year the code has the shape `CAMPdddd-dddd` |
| CampCodes.LastDash | server.js:133 | the index of a '-' with no '-' after it, or -1 exactly when the string has no '-' |
| CampCodes.LastDashBeforeDigits | server.js:133 | in `<year>-<digits>` the last dash is the separator, so the year part can be split off |
| CampCodes.ParseIntRoundTrip | server.js:133 | the numeral of any integer year parses back to that year |
| CampCodes.ParseCampCodeRoundTrip | server.js:130-133 | parsing a camp code gives back the year and the suffix it was built from |
| CampCodes.CampCodeInjective | server.js:130-133 | two codes are equal exactly when year and suffix are equal (the only source of a collision) |
| Sequences.Filter | server.js:109-111 | a `WHERE` clause selects exactly the rows that satisfy it and no more rows than the table has |
| Sequences.FilterAscending | server.js:109-111 | a `WHERE` clause keeps its rows in table order |
| Sequences.FilterKeepsAllIff | server.js:180-182 | a filter affects no row exactly when every row satisfies it |
| Sequences.FilterDropsOne | server.js:180-182 | deleting by a unique id that is present removes exactly one row |
| Sequences.AscendingKeyIdentifies | server.js:91-99 | in a table with ascending ids, the id identifies a row, so the first row found is the only one |
| Sequences.Reverse | server.js:26-27 | the reversed table has the same length and holds row `|s|-1-i` at position `i` |
| Sequences.ReverseMembers | server.js:26-27 | reversing neither adds nor loses a row |
| Sequences.ReverseDescending | server.js:26-27 | a table kept in ascending id order reads back in descending id order |
| Sequences.DescendingUnique | server.js:109-111 | two strictly descending sequences with the same rows are equal, so `ORDER BY id DESC` determines the answer |
| Sequences.LexLeTotal | server.js:169 | any two names are comparable |
| Sequences.LexLeTransitive | server.js:169 | the name order is transitive |
| Sequences.InsertByKey | server.js:169 | inserting a row adds exactly that row to the multiset of rows |
| Sequences.InsertByKeySorted | server.js:169 | inserting into a sorted list keeps it sorted |
| Sequences.SortByKey | server.js:169 | `ORDER BY key ASC` returns a permutation of the table, sorted by key |
| Tables.PatientsWithId | server.js:91-93 | `WHERE patient_id = id` selects exactly the rows with that id, in table order |
| Tables.WithoutPatient | server.js:180 | `DELETE ... WHERE patient_id = id` keeps exactly the rows with another id, in table order |
| Tables.PatientsOfCamp | server.js:109-111 | `WHERE camp_id = c` selects exactly the rows whose `camp_id` is `c` (never a null one), in table order |
| Tables.WithoutPatientAffects | server.js:180-182 | a delete keeps exactly the rows with another id; afterwards no row has the id; one row is affected when the id was present and none otherwise |
| Tables.WithoutAbsentPatient | server.js:180-183 | a delete of an absent id leaves the table as it was |
| Tables.Store.constructor | server.js:12-18 | a freshly created database, the starting point of the scenarios: empty `patients` and `camps` tables, both counters at 1, and the given doctors (the pool itself connects to a database of any contents) |
| Tables.Store.InsertPatient | server.js:59-62 | one row appended under the next auto-increment id, which no existing row has; camps untouched; the table invariant kept |
| Tables.Store.InsertCamp | server.js:135-137 | one camp appended under the next auto-increment id, which no existing camp has; patients untouched |
| Tables.Store.DeletePatient | server.js:180 | the table minus the rows with that id; `affectedRows` is 1 when the id was present and 0 otherwise |
| ServerJs.NameKey | server.js:169 | a name is compared by its character codes, position by position |
| ServerJs.GetPatients | server.js:24-34 | 500 exactly when the query fails; otherwise every patient and only patients, in strictly descending `patient_id` |
| ServerJs.PostPatient | server.js:37-86 | 400 and no change when `name`, `gender` or `phone` is falsy, whether or not the store would fail; 500 and no change on a failed insert; otherwise exactly one row appended under a fresh id, holding the normalised fields, with that id returned and the counter advanced past it |
| ServerJs.GetPatientById | server.js:89-104 | 404 exactly when no row has the id; otherwise the row with that id, which is the only one |
| ServerJs.GetPatientsByCamp | server.js:107-118 | exactly the patients whose `camp_id` equals the argument, in strictly descending `patient_id` |
| ServerJs.PatientsByCampDetermined | server.js:107-113 | any list of exactly the camp's patients in descending id equals the handler's answer |
| ServerJs.PostCamp | server.js:121-153 | 400 and no insert for a falsy `camp_name`; 500 and no change on a failed insert; otherwise one camp appended with code `CAMP<year>-<n>`, `location || null` and `camp_date || now`, while the response echoes `camp_name`, `camp_date` and `location` as sent; the camps counter advances by one |
| ServerJs.GetCamps | server.js:156-164 | every camp and only camps, in strictly descending `camp_id` |
| ServerJs.GetDoctors | server.js:167-175 | a permutation of the doctors table, sorted by the name key |
| ServerJs.DeletePatient | server.js:177-191 | 404 exactly when no row has the id, and then nothing changes; otherwise that row is removed and every other row kept; camps and both counters are untouched; a failed statement changes nothing |
| ServerMjs.PostCamp | server.mjs:28-52 | the server.js guard; the insert has no camp code and no `created_at`; the response carries no `camp_code`; the camps counter advances by one |
| ServerMjs.GetCamps | server.mjs:55-63 | a permutation of the camps table, ordered by non-increasing `camp_date` |
| ServerMjs.PostPatient | server.mjs:95-144 | the server.js guard and normalisation; the insert does not set `created_at`; one row appended under a fresh id, with the counter advanced past it |
| ServerMjs.PatientRowsDifferOnlyInCreatedAt | server.mjs:117-133 | the two servers store the same patient row except for `created_at` |
| Scenarios.RegisterThenFetch | server.js:37-104 | fetching a newly registered patient by the returned id gives the required fields as sent and the optional fields normalised |
| Scenarios.DeleteTwice | server.js:177-191 | deleting one id twice: the first succeeds exactly when the patient existed, the second always gives 404 |
| Scenarios.FirstCampAndPatient | server.js:107-153 | on a fresh database the first camp gets id 1 and a `CAMPdddd-dddd` code, the first patient gets id 1, and listing camp 1 gives exactly that patient |

## Left out

- Express, cors, dotenv, `app.listen` and the port and environment configuration are transport plumbing. JSON serialisation, `console` logging, the response message strings and `/api/ping` are left out too.
- The mysql2 connection pool (`connectionLimit: 10`), async/await and concurrent requests are left out. The model runs one handler at a time on a store with no pool. SQL text is not modelled.
- The causes of the 500 responses (connection loss, constraint and foreign-key violations, a `camp_code` collision) live in the database. They are the single parameter `storeFails`. A failed statement changes nothing.
- `Math.random()` and `Math.floor` are floating point. The random suffix is a parameter of the subtype `FourDigit` (1000 to 9999), which is exactly the range of the source's expression.
- `new Date()`, `getFullYear()` and SQL `NOW()` read clocks. They are the parameters `now` and `year`. One `now` stands for both the JavaScript clock and the database clock.
- Path parameters (`:id`, `:camp_id`) arrive as strings, and MySQL converts them to numbers. The model takes them as integers.
- Values are stored as the body sent them. MySQL's conversion of a value to its column type (a string into an INT column, a date string into DATE) is not modelled. Nor is the statement failure that an unconvertible value causes. So `WHERE camp_id = c` matches a stored `Int(c)` only.
- JSON numbers that are not integers, and objects or arrays in the request body, are not in the value model.
- A failed insert may consume an auto-increment value in MySQL. In the model the counter advances only on a successful insert.
- The referential-integrity rule that a patient's `camp_id` names an existing camp is enforced by the database and surfaces as a 500. It is covered only through `storeFails`.
- ServerJs.GetDoctors: names are compared by character code. MySQL's collation (typically case-insensitive) is not modelled.
- ServerMjs.GetCamps: `dateKey` stands for the instant the database reads from a stored `camp_date`. The model breaks ties in ascending `camp_id`, where SQL leaves the order of equal dates unspecified. The contract states only the non-increasing date order and the permutation.
- The table row for a doctor carries its name and an uninterpreted map of other columns. The schema of `doctors` is not part of this model.
- test-server.js, express-test.mjs, api-test.js and test.mjs hold ping routes, static stub responses and a single fixed query. No logic is modelled from them.
