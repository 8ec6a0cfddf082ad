/**
 * The FHIR records the frontend reads. Every field the JSON may omit is an
 * `Option`; the loosely typed sub-records (names, telecoms, identifiers,
 * contacts) keep only the fields the formatters look at.
 */
module FhirTypes {
  import opened Wrappers

  /** The resource types the shared enum names. */
  datatype FhirResourceType = Patient | Bundle {
    function Name(): (r: string)
      ensures r == "Patient" <==> this == Patient
    {
      match this
      case Patient => "Patient"
      case Bundle => "Bundle"
    }
  }

  datatype FhirName = FhirName(family: Option<string>, given: Option<seq<string>>)

  datatype FhirTelecom = FhirTelecom(system: Option<string>, value: Option<string>)

  datatype FhirIdentifier = FhirIdentifier(value: Option<string>)

  datatype FhirCoding = FhirCoding(code: Option<string>)

  datatype FhirCodeableConcept = FhirCodeableConcept(coding: Option<seq<FhirCoding>>)

  datatype FhirContact = FhirContact(relationship: Option<seq<FhirCodeableConcept>>)

  datatype FhirPatientMeta = FhirPatientMeta(lastUpdated: Option<string>)

  datatype FhirText = FhirText(status: Option<string>)

  /**
   * A patient resource as decoded from the server's JSON. The declared
   * interface fixes `resourceType` to "Patient", but a bundle entry may hold
   * any resource, so the field is kept as the raw string.
   */
  datatype FhirPatient = FhirPatient(
    resourceType: Option<string>,
    id: Option<string>,
    meta: Option<FhirPatientMeta>,
    text: Option<FhirText>,
    identifier: Option<seq<FhirIdentifier>>,
    active: Option<bool>,
    name: Option<seq<FhirName>>,
    telecom: Option<seq<FhirTelecom>>,
    gender: Option<string>,
    birthDate: Option<string>,
    contact: Option<seq<FhirContact>>,
    multipleBirthInteger: Option<int>
  )

  datatype FhirEntry = FhirEntry(resource: Option<FhirPatient>)

  /** A bundle as the views read it: only its entry list. */
  datatype FhirBundle = FhirBundle(entry: Option<seq<FhirEntry>>)
}
