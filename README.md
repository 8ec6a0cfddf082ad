# FHIR patient portal frontend: a Dafny model

This project models the browser side of a SMART-on-FHIR patient portal. It covers three pieces:

- **The FHIR store** (`FhirStore`). A class holds `isAuthenticated`, the last fetched patient bundle (`patients`), the `selectedPatient`, and the application store's pending flag and message. Each asynchronous action is split at its first `await`. `Begin…` raises the pending flag with the action's own message and returns the request it sends. `Finish…` receives the network's outcome and runs the rest of the action. In the three fetch actions, `try`/`catch` update one domain field from the outcome and the `finally` lowers the pending flag. In `logout`, the `finally` resets all three domain fields and lowers the pending flag. The network is a parameter. `Outcome<T>` is either `Threw` or `Responded(status, body)`, where `body == None` means `res.json()` failed.
- **The patient details formatter** (`PatientDetails`). `GetFieldValue` maps a patient and one of the twelve `PatientField` values to a display string. `FieldRowCell` is the rule that decides when the "N/A" chip is shown.
- **The patient list table** (`PatientsList`). It decides when the table is drawn. It keeps only the `Patient` entries, in bundle order, and renders each as a row with `"-"` fallbacks and a `/patients/<id>` link.

`Text` writes out the JavaScript built-ins these rely on: `trim`, `join` and `String(n)` for integers. Each has a reference characterisation. `Trim` is proved equal to the unique core of its input with no whitespace at either end. Each part of a `Join` is proved to occupy its own segment. `String(n)` is proved to be the canonical decimal numeral of `n`.

`FhirTypes` holds the FHIR records from the shared types. Every optional or loosely typed field is an `Option`.

Behaviour as written that is easy to misread:

- `fetchPatients` stores the decoded body for every status other than 401 and 403, 500 included. It does not clear the bundle on other failure statuses. An error body without an `entry` list then simply draws no table.
- `fetchPatientById` does check `res.ok`.
- The store calls `/fhir/check-session` and `/fhir/stop`, but the backend routes define neither (`backend/src/api/routes/fhirRoutes.ts:7-9`). The model therefore states nothing about the server side.

## Model

| member | source | states |
|---|---|---|
| `FhirStore.Store.constructor` | frontend/src/stores/fhirStore.ts:29-41 | Initially `patients` and `selectedPatient` are null, `isAuthenticated` is false and nothing is pending |
| `FhirStore.Store.SetSelectedPatient` | frontend/src/stores/fhirStore.ts:46 | Sets `selectedPatient` and, by its frame, no other field |
| `FhirStore.Store.SetIsAuthenticated` | frontend/src/stores/fhirStore.ts:50 | Sets `isAuthenticated` and, by its frame, no other field |
| `FhirStore.Store.SetIsPending` | frontend/src/stores/fhirStore.ts:64 | `setIsPending(flag, text?)` assigns the pending flag and message and nothing else |
| `FhirStore.Store.StartFhirClient` | frontend/src/stores/fhirStore.ts:55-57 | Navigates to the backend's start URL and changes no store field |
| `FhirStore.Store.BeginLogout` | frontend/src/stores/fhirStore.ts:62-66 | Before the await, pending is true with "Logging out..." and a credentialed POST to `/fhir/stop` is issued |
| `FhirStore.Store.FinishLogout` | frontend/src/stores/fhirStore.ts:67-74 | Whatever the outcome, all three domain fields are reset and pending is cleared; the action rejects exactly when the call threw |
| `FhirStore.Store.Logout` | frontend/src/stores/fhirStore.ts:62-75 | The whole action: request issued, state reset on success and on a throw, pending false at the end |
| `FhirStore.Store.BeginFetchPatients` | frontend/src/stores/fhirStore.ts:80-86 | Pending true with "Fetching patients..." before the credentialed GET of `/fhir/patients` |
| `FhirStore.Store.FinishFetchPatients` | frontend/src/stores/fhirStore.ts:87-97 | 401/403, a throw or an undecodable body leave `patients` null; any other status stores exactly the decoded body, 5xx included; `selectedPatient` and `isAuthenticated` unchanged; pending cleared on every path |
| `FhirStore.Store.FetchPatients` | frontend/src/stores/fhirStore.ts:80-98 | The whole action: `patients` is non-null iff the status is not 401/403 and the body decodes, and then it equals that body; the other domain fields are unchanged |
| `FhirStore.Store.BeginCheckSession` | frontend/src/stores/fhirStore.ts:103-108 | Pending true with "Checking session..." before the credentialed GET of `/fhir/check-session` |
| `FhirStore.Store.FinishCheckSession` | frontend/src/stores/fhirStore.ts:109-118 | `isAuthenticated` is true iff the status is exactly 200 (false for any other status and for a throw); only that field and pending change |
| `FhirStore.Store.CheckSession` | frontend/src/stores/fhirStore.ts:103-119 | The whole action; its result depends on the outcome only, so repeating it with the same answer gives the same state |
| `FhirStore.Store.BeginFetchPatientById` | frontend/src/stores/fhirStore.ts:124-128 | Pending true with "Fetching patient by ID..." before the credentialed GET of `/fhir/patients/<id>` |
| `FhirStore.Store.FinishFetchPatientById` | frontend/src/stores/fhirStore.ts:129-143 | `selectedPatient` equals the decoded body iff the response is ok and decodes; for 401/403, any non-ok status, a throw or a bad body it is null, never the previous value; `patients` and `isAuthenticated` unchanged |
| `FhirStore.Store.FetchPatientById` | frontend/src/stores/fhirStore.ts:124-144 | The whole action, with the same outcome-to-state mapping and pending cleared |
| `FhirStore.StaleBundleClearedByForbidden` | frontend/src/stores/fhirStore.ts:87-90 | A bundle stored by one fetch is gone after a fetch answered 403 |
| `FhirStore.StalePatientClearedByFailure` | frontend/src/stores/fhirStore.ts:129-140 | A selected patient is gone after a later fetch that throws or gets a non-ok status |
| `FhirStore.LogoutAfterSession` | frontend/src/stores/fhirStore.ts:65-74 | After a session with data, a logout whose stop call throws still leaves everything cleared, and the action rejects |
| `FhirTypes.FhirResourceType.Name` | shared/src/types/enums/index.ts:8-12 | The enum's string is "Patient" exactly for the Patient resource type; the list's entry filter compares against it |
| `Text.TrimMeetsReference` | frontend/src/pages/PatientDetails/index.tsx:42 | `trim` returns a contiguous piece of its input with only whitespace around it and none at its own ends |
| `Text.TrimOfUnique` | frontend/src/pages/PatientDetails/index.tsx:42 | That reference description admits only one string |
| `Text.TrimIsTheTrim` | frontend/src/pages/PatientDetails/index.tsx:42 | So `Trim(s)` is exactly the trimmed core of `s`, and it has no leading or trailing whitespace |
| `Text.TrimIdempotent` | frontend/src/pages/Landing/FhirPatientsList.tsx:70 | Trimming twice is trimming once |
| `Text.TrimEmptyIff` | frontend/src/pages/Landing/FhirPatientsList.tsx:70 | `trim` yields "" exactly for all-whitespace input |
| `Text.JoinSegment` | frontend/src/pages/PatientDetails/index.tsx:47 | In `parts.join(sep)`, part `i` occupies its own segment at a fixed offset (the lengths of the earlier parts and separators) |
| `Text.JoinSeparatorAfter` | frontend/src/pages/PatientDetails/index.tsx:47 | Every part but the last is followed by the separator in the joined string |
| `Text.JoinLength` | frontend/src/pages/PatientDetails/index.tsx:47 | The joined length is the parts' lengths plus one separator between each two |
| `Text.JoinEmptyIff` | frontend/src/pages/PatientDetails/index.tsx:50 | With a non-empty separator the join is "" only for no parts or a single empty part |
| `Text.NatToDecimalCorrect` | frontend/src/pages/PatientDetails/index.tsx:58 | The digits of a natural number are canonical and read back as that number |
| `Text.IntToDecimalCorrect` | frontend/src/pages/PatientDetails/index.tsx:58 | `String(n)` for an integer of magnitude at most 2^53 is the canonical decimal numeral of `n`, with a minus sign for negatives, and is never "" |
| `PatientDetails.ContactCode` | frontend/src/pages/PatientDetails/index.tsx:53 | The result is the code of the first coding of the first relationship when that code is present, and "" otherwise |
| `PatientDetails.GetFieldValue` | frontend/src/pages/PatientDetails/index.tsx:36-37 | A null patient yields "" for every field |
| `PatientDetails.NameFieldTrimmed` | frontend/src/pages/PatientDetails/index.tsx:39-44 | With a first name record, the Name value is the trimmed core of `family ?? ""`, a space, and the `given` parts joined by single spaces ("" when `given` is not a list); it never starts or ends with whitespace |
| `PatientDetails.NameFieldFirstEntryOnly` | frontend/src/pages/PatientDetails/index.tsx:40-42 | Only the first name record matters: the other name records have no effect on the value |
| `PatientDetails.NameFieldWithoutNames` | frontend/src/pages/PatientDetails/index.tsx:40-44 | No names (absent or empty list) gives "" |
| `PatientDetails.TelecomFieldSegment` | frontend/src/pages/PatientDetails/index.tsx:45-48 | Telecom entry `i` appears as `system: value` (missing parts "") in its own segment of the ", "-joined value |
| `PatientDetails.TelecomFieldLength` | frontend/src/pages/PatientDetails/index.tsx:45-48 | The Telecom value holds one segment per entry and the separators, nothing more |
| `PatientDetails.TelecomFieldEmptyIff` | frontend/src/pages/PatientDetails/index.tsx:45-48 | Telecom is "" exactly when `telecom` is absent or empty |
| `PatientDetails.IdentifierFieldSegment` | frontend/src/pages/PatientDetails/index.tsx:49-50 | Identifier `i`'s value (or "") occupies its own segment of the ", "-joined value |
| `PatientDetails.ContactFieldSegment` | frontend/src/pages/PatientDetails/index.tsx:51-54 | Contact `i`'s code (or "") occupies its own segment of the ", "-joined value |
| `PatientDetails.IdentifierFieldLength` | frontend/src/pages/PatientDetails/index.tsx:49-50 | The Identifier value holds one segment per identifier and the separators, nothing more |
| `PatientDetails.ContactFieldLength` | frontend/src/pages/PatientDetails/index.tsx:51-54 | The Contact value holds one segment per contact and the separators, nothing more |
| `PatientDetails.ListFieldsAbsent` | frontend/src/pages/PatientDetails/index.tsx:45-54 | An absent telecom, identifier or contact list gives "" |
| `PatientDetails.ActiveFieldYesNo` | frontend/src/pages/PatientDetails/index.tsx:63-64 | "Yes" iff `active` is true, "No" otherwise (absent included), so never "" |
| `PatientDetails.MultipleBirthField` | frontend/src/pages/PatientDetails/index.tsx:57-58 | The decimal numeral of `multipleBirthInteger` when present; "" exactly when absent |
| `PatientDetails.PlainFieldsPassThrough` | frontend/src/pages/PatientDetails/index.tsx:55-70 | Id, Gender, BirthDate, ResourceType, Last Updated and Text Status show the underlying value, or "" when it or its parent record is absent |
| `PatientDetails.FieldRowCell` | frontend/src/pages/PatientDetails/index.tsx:25-31 | "N/A" is shown iff the value is undefined, null or ""; otherwise the value itself is shown |
| `PatientDetails.ActiveRowNeverNotAvailable` | frontend/src/pages/PatientDetails/index.tsx:31 | The Active row never shows N/A |
| `PatientDetails.MultipleBirthRowNotAvailableIff` | frontend/src/pages/PatientDetails/index.tsx:115 | The Multiple Birth row shows N/A exactly when the integer is absent |
| `PatientDetails.TelecomRowNotAvailableIff` | frontend/src/pages/PatientDetails/index.tsx:111 | The Telecom row shows N/A exactly when there are no telecom entries |
| `PatientsList.TableRows` | frontend/src/pages/Landing/FhirPatientsList.tsx:49 | No rows unless the bundle's `entry` is a non-empty list; when the table is shown its rows are the filtered, mapped entries, never more than there are entries |
| `PatientsList.RowOf` | frontend/src/pages/Landing/FhirPatientsList.tsx:64-74 | No cell is empty; name, gender and birth date show the value, or "-" when it is missing or empty; the link is "/patients/" followed by the id, or by "undefined" when the id is missing |
| `PatientsList.PatientsOf` | frontend/src/pages/Landing/FhirPatientsList.tsx:61-62 | The filter keeps at most every entry, and all of them when all are Patients |
| `PatientsList.PatientRows` | frontend/src/pages/Landing/FhirPatientsList.tsx:61-63 | The filter then the row map: one row per kept patient and per Patient position, never more rows than entries |
| `PatientsList.PatientIndicesCount` | frontend/src/pages/Landing/FhirPatientsList.tsx:61-63 | There are exactly as many kept patients as Patient positions |
| `PatientsList.PatientIndicesValid` | frontend/src/pages/Landing/FhirPatientsList.tsx:62 | The computed positions are all Patient entries |
| `PatientsList.PatientIndicesIncreasing` | frontend/src/pages/Landing/FhirPatientsList.tsx:61-63 | The positions are strictly increasing, so the bundle order is kept |
| `PatientsList.PatientIndicesComplete` | frontend/src/pages/Landing/FhirPatientsList.tsx:62 | Every Patient entry's position is among them |
| `PatientsList.PatientIndicesArePositions` | frontend/src/pages/Landing/FhirPatientsList.tsx:61-63 | Together these give exactly the Patient positions, in order |
| `PatientsList.PatientsOfInOrder` | frontend/src/pages/Landing/FhirPatientsList.tsx:61-64 | The `k`th kept patient is the resource of the `k`th Patient entry |
| `PatientsList.PatientRowsInOrder` | frontend/src/pages/Landing/FhirPatientsList.tsx:61-80 | Row `k` is the row of the `k`th Patient entry |
| `PatientsList.NameCellMatchesDetails` | frontend/src/pages/Landing/FhirPatientsList.tsx:65-70 | The list's name cell is the details page's Name value, with "-" in place of "" |

## Left out

- The backend (`backend/src/api/controllers/fhirController.ts`, `backend/src/api/routes/fhirRoutes.ts`, `backend/src/app.ts`) is left out. It consists of thin calls into the external SMART-on-FHIR client library and Express/session wiring, and the library's behaviour is not part of this model.
- Network I/O (`apiFetch`, `fetch`) and JSON decoding are not modelled. They are the `Outcome` parameter. HTTP statuses are unbounded integers.
- The `window.location.href` assignment is returned as a value, not performed.
- Interleaving of overlapping asynchronous actions on the shared pending flag is not modelled. The two halves of each action can be called separately, but no property is stated about races.
- The application store (`useAppStore`) is not part of this model. Its `setIsPending(flag, text?)` is plain assignment to two fields, which start as false and no message.
- React/MUI rendering, the router, the route guards (`ProtectedRoute.tsx`, `LoginPage.tsx`, `AccountMenu.tsx`), `LogoutPage.tsx` and the `Locales` enum are left out. These are presentation or one-line navigation code.
- The React `key` of each row is left out.
- The unreachable `default` arm of the field switch is left out.
- Bundle fields the views never read (`resourceType`, `id`, `meta`, `type`, `link`, an entry's `fullUrl` and `search`) are left out.
- JSON values of the wrong type in loosely typed records are not modelled. Examples are a number in `family`, `null` elements in `given`, or `multipleBirthInteger: null` (which `String` renders as "null"). Every such field is a string, an integer or absent.
- `multipleBirthInteger` is an integer. JavaScript's formatting of non-integral numbers is left out.
- Text.IntToDecimalCorrect: models `String(n)` as the plain decimal numeral for every integer. JavaScript numbers are doubles: `String` switches to exponent notation from 10^21 up ("1e+21"), integers above 2^53 are rounded before they reach the formatter, and `Number::toString` writes only the shortest digits that read back as the same double, padded with zeros (`String(2**64)` is "18446744073709552000"). None of this is modelled, because a multiple-birth count never comes near those magnitudes.
- PatientDetails.MultipleBirthField: inherits the same gap. The decimal-numeral claim holds for the source only for integers of magnitude at most 2^53.
- FhirStore.Store.CheckSession: the repeat-safety of the check is not stated as a separate two-call property. It follows from the contract, which mentions only the outcome.
