/**
 * The browser-side FHIR store: authentication flag, last fetched bundle,
 * selected patient, and the shared pending flag with its message.
 *
 * Each asynchronous action runs in two steps, as a JavaScript `async`
 * function does: `Begin...` is the synchronous part up to the first `await`
 * (it raises the pending flag and issues the request), and `Finish...` is
 * the continuation, given the network's outcome. In the three fetch actions
 * `try`/`catch` update one domain field from the outcome and the `finally`
 * lowers the pending flag; in `logout` the `finally` resets all three
 * domain fields and lowers the pending flag. The method named after the
 * action runs both.
 */
module FhirStore {
  import opened Wrappers
  import opened FhirTypes

  /**
   * What awaiting the request produced: the call threw, or a response
   * arrived with a status and, if `res.json()` succeeds, a decoded body.
   */
  datatype Outcome<T> = Threw | Responded(status: int, body: Option<T>)

  /** `res.ok`: a 2xx status. */
  predicate IsOk(status: int) {
    200 <= status <= 299
  }

  /** A request issued by the store: HTTP method, path, and whether cookies are sent. */
  datatype Request = Request(httpMethod: string, path: string, withCredentials: bool)

  const PatientsApiEndpoint: string := "/fhir"
  const StartUrl: string := "http://localhost:5000/fhir/start"

  const LoggingOutText: string := "Logging out..."
  const FetchingPatientsText: string := "Fetching patients..."
  const CheckingSessionText: string := "Checking session..."
  const FetchingPatientText: string := "Fetching patient by ID..."

  class Store {
    var patients: Option<FhirBundle>
    var selectedPatient: Option<FhirPatient>
    var isAuthenticated: bool
    /** The application store's pending flag and message. */
    var isPending: bool
    var pendingText: Option<string>

    constructor ()
      ensures patients == None && selectedPatient == None && !isAuthenticated
      ensures !isPending && pendingText == None
    {
      patients := None;
      selectedPatient := None;
      isAuthenticated := false;
      isPending := false;
      pendingText := None;
    }

    method SetSelectedPatient(patient: Option<FhirPatient>)
      modifies this`selectedPatient
      ensures selectedPatient == patient
    {
      selectedPatient := patient;
    }

    method SetIsAuthenticated(auth: bool)
      modifies this`isAuthenticated
      ensures isAuthenticated == auth
    {
      isAuthenticated := auth;
    }

    /** `setIsPending(flag, text?)`: plain assignment of both parts. */
    method SetIsPending(flag: bool, text: Option<string>)
      modifies this`isPending, this`pendingText
      ensures isPending == flag && pendingText == text
    {
      isPending, pendingText := flag, text;
    }

    /** Starting the OAuth flow only navigates the browser; no store field changes. */
    method StartFhirClient() returns (location: string)
      ensures location == StartUrl
    {
      location := StartUrl;
    }

    // ------------------------------------------------------------ logout

    method BeginLogout() returns (req: Request)
      modifies this`isPending, this`pendingText
      ensures isPending && pendingText == Some(LoggingOutText)
      ensures req == Request("POST", "/fhir/stop", true)
    {
      SetIsPending(true, Some(LoggingOutText));
      req := Request("POST", "/fhir/stop", true);
    }

    /**
     * The `finally` resets every domain field whatever the outcome; there is
     * no `catch`, so a thrown call still rejects the action's promise.
     */
    method FinishLogout<T>(outcome: Outcome<T>) returns (rejected: bool)
      modifies this
      ensures !isAuthenticated && patients == None && selectedPatient == None
      ensures !isPending && pendingText == None
      ensures rejected <==> outcome.Threw?
    {
      isAuthenticated, patients, selectedPatient := false, None, None;
      SetIsPending(false, None);
      rejected := outcome.Threw?;
    }

    method Logout<T>(outcome: Outcome<T>) returns (req: Request, rejected: bool)
      modifies this
      ensures req == Request("POST", "/fhir/stop", true)
      ensures !isAuthenticated && patients == None && selectedPatient == None
      ensures !isPending && pendingText == None
      ensures rejected <==> outcome.Threw?
    {
      req := BeginLogout();
      rejected := FinishLogout(outcome);
    }

    // ------------------------------------------------------------ fetchPatients

    method BeginFetchPatients() returns (req: Request)
      modifies this`isPending, this`pendingText
      ensures isPending && pendingText == Some(FetchingPatientsText)
      ensures req == Request("GET", PatientsApiEndpoint + "/patients", true)
    {
      SetIsPending(true, Some(FetchingPatientsText));
      req := Request("GET", PatientsApiEndpoint + "/patients", true);
    }

    /**
     * 401 and 403 clear the bundle and return early; a throw or an
     * undecodable body clears it in the `catch`; every other status,
     * 5xx included, stores the decoded body as it is.
     */
    method FinishFetchPatients(outcome: Outcome<FhirBundle>)
      modifies this`patients, this`isPending, this`pendingText
      ensures outcome.Responded? && (outcome.status == 401 || outcome.status == 403) ==> patients == None
      ensures outcome.Threw? ==> patients == None
      ensures outcome.Responded? && outcome.status != 401 && outcome.status != 403 ==>
        patients == outcome.body
      ensures patients.Some? <==>
        outcome.Responded? && outcome.status != 401 && outcome.status != 403 && outcome.body.Some?
      ensures selectedPatient == old(selectedPatient) && isAuthenticated == old(isAuthenticated)
      ensures !isPending && pendingText == None
    {
      match outcome {
        case Threw =>
          patients := None;
        case Responded(status, body) =>
          if status == 401 || status == 403 {
            patients := None;
          } else if body.None? {
            patients := None;
          } else {
            patients := body;
          }
      }
      SetIsPending(false, None);
    }

    method FetchPatients(outcome: Outcome<FhirBundle>) returns (req: Request)
      modifies this`patients, this`isPending, this`pendingText
      ensures req == Request("GET", PatientsApiEndpoint + "/patients", true)
      ensures patients.Some? <==>
        outcome.Responded? && outcome.status != 401 && outcome.status != 403 && outcome.body.Some?
      ensures patients.Some? ==> patients == outcome.body
      ensures selectedPatient == old(selectedPatient) && isAuthenticated == old(isAuthenticated)
      ensures !isPending && pendingText == None
    {
      req := BeginFetchPatients();
      FinishFetchPatients(outcome);
    }

    // ------------------------------------------------------------ checkSession

    method BeginCheckSession() returns (req: Request)
      modifies this`isPending, this`pendingText
      ensures isPending && pendingText == Some(CheckingSessionText)
      ensures req == Request("GET", "/fhir/check-session", true)
    {
      SetIsPending(true, Some(CheckingSessionText));
      req := Request("GET", "/fhir/check-session", true);
    }

    /** Authenticated exactly when the check answered 200; any other status or a throw means not. */
    method FinishCheckSession<T>(outcome: Outcome<T>)
      modifies this`isAuthenticated, this`isPending, this`pendingText
      ensures isAuthenticated <==> outcome.Responded? && outcome.status == 200
      ensures patients == old(patients) && selectedPatient == old(selectedPatient)
      ensures !isPending && pendingText == None
    {
      match outcome {
        case Threw =>
          SetIsAuthenticated(false);
        case Responded(status, _) =>
          if status == 200 {
            SetIsAuthenticated(true);
          } else {
            SetIsAuthenticated(false);
          }
      }
      SetIsPending(false, None);
    }

    method CheckSession<T>(outcome: Outcome<T>) returns (req: Request)
      modifies this`isAuthenticated, this`isPending, this`pendingText
      ensures req == Request("GET", "/fhir/check-session", true)
      ensures isAuthenticated <==> outcome.Responded? && outcome.status == 200
      ensures patients == old(patients) && selectedPatient == old(selectedPatient)
      ensures !isPending && pendingText == None
    {
      req := BeginCheckSession();
      FinishCheckSession(outcome);
    }

    // ------------------------------------------------------------ fetchPatientById

    method BeginFetchPatientById(id: string) returns (req: Request)
      modifies this`isPending, this`pendingText
      ensures isPending && pendingText == Some(FetchingPatientText)
      ensures req == Request("GET", PatientsApiEndpoint + "/patients/" + id, true)
    {
      SetIsPending(true, Some(FetchingPatientText));
      req := Request("GET", PatientsApiEndpoint + "/patients/" + id, true);
    }

    /**
     * The patient is stored only for an ok response whose body decodes;
     * 401, 403, any other non-ok status, a throw or an undecodable body
     * clear it, so a previous patient never survives a failed fetch.
     */
    method FinishFetchPatientById(outcome: Outcome<FhirPatient>)
      modifies this`selectedPatient, this`isPending, this`pendingText
      ensures outcome.Responded? && IsOk(outcome.status) ==> selectedPatient == outcome.body
      ensures !(outcome.Responded? && IsOk(outcome.status)) ==> selectedPatient == None
      ensures selectedPatient.Some? <==> outcome.Responded? && IsOk(outcome.status) && outcome.body.Some?
      ensures patients == old(patients) && isAuthenticated == old(isAuthenticated)
      ensures !isPending && pendingText == None
    {
      match outcome {
        case Threw =>
          selectedPatient := None;
        case Responded(status, body) =>
          if status == 401 || status == 403 {
            selectedPatient := None;
          } else if !IsOk(status) {
            selectedPatient := None;
          } else if body.None? {
            selectedPatient := None;
          } else {
            selectedPatient := body;
          }
      }
      SetIsPending(false, None);
    }

    method FetchPatientById(id: string, outcome: Outcome<FhirPatient>) returns (req: Request)
      modifies this`selectedPatient, this`isPending, this`pendingText
      ensures req == Request("GET", PatientsApiEndpoint + "/patients/" + id, true)
      ensures selectedPatient.Some? <==> outcome.Responded? && IsOk(outcome.status) && outcome.body.Some?
      ensures selectedPatient.Some? ==> selectedPatient == outcome.body
      ensures patients == old(patients) && isAuthenticated == old(isAuthenticated)
      ensures !isPending && pendingText == None
    {
      req := BeginFetchPatientById(id);
      FinishFetchPatientById(outcome);
    }
  }
  /**
   * Client scenario: a bundle fetched successfully does not survive a later
   * fetch answered with 403, and the pending flag ends lowered.
   */
  method StaleBundleClearedByForbidden(b: FhirBundle) returns (first: Option<FhirBundle>, after: Option<FhirBundle>, pending: bool)
    ensures first == Some(b)
    ensures after == None && !pending
  {
    var store := new Store();
    var _ := store.FetchPatients(Responded(200, Some(b)));
    first := store.patients;
    var _ := store.FetchPatients(Responded(403, Some(b)));
    after, pending := store.patients, store.isPending;
  }

  /**
   * Client scenario: a patient selected by one fetch is cleared, not kept,
   * by a later fetch that fails with any non-ok status or throws.
   */
  method StalePatientClearedByFailure(p: FhirPatient, id: string, failure: Outcome<FhirPatient>)
    returns (first: Option<FhirPatient>, after: Option<FhirPatient>)
    requires failure.Threw? || !IsOk(failure.status)
    ensures first == Some(p)
    ensures after == None
  {
    var store := new Store();
    var _ := store.FetchPatientById(id, Responded(200, Some(p)));
    first := store.selectedPatient;
    var _ := store.FetchPatientById(id, failure);
    after := store.selectedPatient;
  }

  /** Client scenario: logout clears everything a session had, even when the stop call throws. */
  method LogoutAfterSession(b: FhirBundle, p: FhirPatient, id: string)
    returns (authenticated: bool, bundle: Option<FhirBundle>, patient: Option<FhirPatient>, rejected: bool)
    ensures !authenticated && bundle == None && patient == None && rejected
  {
    var store := new Store();
    var _ := store.CheckSession<FhirBundle>(Responded(200, None));
    var _ := store.FetchPatients(Responded(200, Some(b)));
    var _ := store.FetchPatientById(id, Responded(200, Some(p)));
    var _, r := store.Logout<FhirBundle>(Threw);
    authenticated, bundle, patient, rejected := store.isAuthenticated, store.patients, store.selectedPatient, r;
  }
}

