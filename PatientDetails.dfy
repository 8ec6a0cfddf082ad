/** The patient details page: one display string per patient field, and the N/A rule. */
module PatientDetails {
  import opened Wrappers
  import opened Text
  import opened FhirTypes

  datatype PatientField =
    | Active | BirthDate | Contact | Gender | Id | Identifier
    | LastUpdated | MultipleBirth | Name | ResourceType | Telecom | TextStatus

  /** `family given...`, trimmed, from one name record. */
  function NameText(n: FhirName): string {
    var given := match n.given
      case Some(g) => Join(g, " ")
      case None => "";
    Trim(n.family.GetOr("") + " " + given)
  }

  /** `system: value` for one telecom record. */
  function TelecomText(t: FhirTelecom): string {
    t.system.GetOr("") + ": " + t.value.GetOr("")
  }

  /** Whether `relationship?.[0]?.coding?.[0]?.code` is present. */
  predicate HasFirstCode(c: FhirContact) {
    c.relationship.Some? && |c.relationship.value| > 0 &&
    c.relationship.value[0].coding.Some? && |c.relationship.value[0].coding.value| > 0 &&
    c.relationship.value[0].coding.value[0].code.Some?
  }

  /** The code of the first coding of the first relationship, `relationship?.[0]?.coding?.[0]?.code ?? ""`. */
  function ContactCode(c: FhirContact): (r: string)
    ensures HasFirstCode(c) ==> r == c.relationship.value[0].coding.value[0].code.value
    ensures !HasFirstCode(c) ==> r == ""
  {
    match c.relationship
    case Some(rs) =>
      if |rs| == 0 then ""
      else (match rs[0].coding
        case Some(cs) => if |cs| == 0 then "" else cs[0].code.GetOr("")
        case None => "")
    case None => ""
  }

  function TelecomTexts(ts: seq<FhirTelecom>): (r: seq<string>)
    ensures |r| == |ts| && forall i :: 0 <= i < |ts| ==> r[i] == TelecomText(ts[i])
  {
    seq(|ts|, i requires 0 <= i < |ts| => TelecomText(ts[i]))
  }

  function IdentifierTexts(ids: seq<FhirIdentifier>): (r: seq<string>)
    ensures |r| == |ids| && forall i :: 0 <= i < |ids| ==> r[i] == ids[i].value.GetOr("")
  {
    seq(|ids|, i requires 0 <= i < |ids| => ids[i].value.GetOr(""))
  }

  function ContactCodes(cs: seq<FhirContact>): (r: seq<string>)
    ensures |r| == |cs| && forall i :: 0 <= i < |cs| ==> r[i] == ContactCode(cs[i])
  {
    seq(|cs|, i requires 0 <= i < |cs| => ContactCode(cs[i]))
  }

  /** The display string of `field` for `patient`; an absent patient shows "" everywhere. */
  function GetFieldValue(patient: Option<FhirPatient>, field: PatientField): (r: string)
    ensures patient.None? ==> r == ""
  {
    match patient
    case None => ""
    case Some(p) =>
      match field
      case Name =>
        if p.name.Some? && |p.name.value| > 0 then NameText(p.name.value[0]) else ""
      case Telecom =>
        if p.telecom.Some? then Join(TelecomTexts(p.telecom.value), ", ") else ""
      case Identifier =>
        if p.identifier.Some? then Join(IdentifierTexts(p.identifier.value), ", ") else ""
      case Contact =>
        if p.contact.Some? then Join(ContactCodes(p.contact.value), ", ") else ""
      case LastUpdated =>
        if p.meta.Some? then p.meta.value.lastUpdated.GetOr("") else ""
      case MultipleBirth =>
        if p.multipleBirthInteger.Some? then IntToDecimal(p.multipleBirthInteger.value) else ""
      case TextStatus =>
        if p.text.Some? then p.text.value.status.GetOr("") else ""
      case Id => p.id.GetOr("")
      case Active => if p.active == Some(true) then "Yes" else "No"
      case Gender => p.gender.GetOr("")
      case BirthDate => p.birthDate.GetOr("")
      case ResourceType => p.resourceType.GetOr("")
  }

  // ---------------------------------------------------------------- Name

  /**
   * The Name field is the trimmed core of the first name record's
   * `family ?? ""`, a space, and its `given` parts joined by spaces; so it
   * never starts or ends with whitespace.
   */
  lemma NameFieldTrimmed(p: FhirPatient)
    ensures NoEdgeWhitespace(GetFieldValue(Some(p), Name))
    ensures p.name.Some? && |p.name.value| > 0 ==>
      var n := p.name.value[0];
      IsTrimOf(GetFieldValue(Some(p), Name),
               n.family.GetOr("") + " " + (if n.given.Some? then Join(n.given.value, " ") else ""))
  {
    if p.name.Some? && |p.name.value| > 0 {
      var n := p.name.value[0];
      var raw := n.family.GetOr("") + " " + (if n.given.Some? then Join(n.given.value, " ") else "");
      TrimIsTheTrim(raw, "");
      TrimMeetsReference(raw);
    }
  }

  /**
   * Only the first name record matters: patients whose first names agree show
   * the same Name, and a patient without names shows "".
   */
  lemma NameFieldFirstEntryOnly(p: FhirPatient, q: FhirPatient)
    requires p.name.Some? && q.name.Some? && |p.name.value| > 0 && |q.name.value| > 0
    requires p.name.value[0] == q.name.value[0]
    ensures GetFieldValue(Some(p), Name) == GetFieldValue(Some(q), Name)
  {
  }

  lemma NameFieldWithoutNames(p: FhirPatient)
    requires p.name.None? || p.name == Some([])
    ensures GetFieldValue(Some(p), Name) == ""
  {
  }

  // ---------------------------------------------------------------- lists joined by ", "

  /** Telecom entry `i` is rendered as `system: value` in its own segment of the joined string. */
  lemma TelecomFieldSegment(p: FhirPatient, i: nat)
    requires p.telecom.Some? && i < |p.telecom.value|
    ensures var r, parts := GetFieldValue(Some(p), Telecom), TelecomTexts(p.telecom.value);
      var start := SegmentStart(parts, ", ", i);
      start + |parts[i]| <= |r| &&
      r[start..start + |parts[i]|] == TelecomText(p.telecom.value[i])
  {
    JoinSegment(TelecomTexts(p.telecom.value), ", ", i);
  }

  /** The Telecom string holds the segments, one per entry, and the separators between them, and nothing more. */
  lemma TelecomFieldLength(p: FhirPatient)
    requires p.telecom.Some? && |p.telecom.value| > 0
    ensures |GetFieldValue(Some(p), Telecom)|
      == SumLengths(TelecomTexts(p.telecom.value)) + 2 * (|p.telecom.value| - 1)
  {
    JoinLength(TelecomTexts(p.telecom.value), ", ");
  }

  /** Since every segment holds ": ", Telecom is "" exactly when there are no telecom entries. */
  lemma TelecomFieldEmptyIff(p: FhirPatient)
    ensures GetFieldValue(Some(p), Telecom) == "" <==> p.telecom.None? || p.telecom == Some([])
  {
    if p.telecom.Some? {
      var parts := TelecomTexts(p.telecom.value);
      JoinEmptyIff(parts, ", ");
      if |parts| == 1 {
        assert |parts[0]| >= 2;
      }
    }
  }

  /** Identifier `i`'s value (or "") occupies its own segment of the ", "-joined string. */
  lemma IdentifierFieldSegment(p: FhirPatient, i: nat)
    requires p.identifier.Some? && i < |p.identifier.value|
    ensures var r, parts := GetFieldValue(Some(p), Identifier), IdentifierTexts(p.identifier.value);
      var start := SegmentStart(parts, ", ", i);
      start + |parts[i]| <= |r| &&
      r[start..start + |parts[i]|] == p.identifier.value[i].value.GetOr("")
  {
    JoinSegment(IdentifierTexts(p.identifier.value), ", ", i);
  }

  /** Contact `i`'s first relationship code (or "") occupies its own segment of the ", "-joined string. */
  lemma ContactFieldSegment(p: FhirPatient, i: nat)
    requires p.contact.Some? && i < |p.contact.value|
    ensures var r, parts := GetFieldValue(Some(p), Contact), ContactCodes(p.contact.value);
      var start := SegmentStart(parts, ", ", i);
      start + |parts[i]| <= |r| &&
      r[start..start + |parts[i]|] == ContactCode(p.contact.value[i])
  {
    JoinSegment(ContactCodes(p.contact.value), ", ", i);
  }

  /** The Identifier value holds one segment per identifier and the separators, nothing more. */
  lemma IdentifierFieldLength(p: FhirPatient)
    requires p.identifier.Some? && |p.identifier.value| > 0
    ensures |GetFieldValue(Some(p), Identifier)|
      == SumLengths(IdentifierTexts(p.identifier.value)) + 2 * (|p.identifier.value| - 1)
  {
    JoinLength(IdentifierTexts(p.identifier.value), ", ");
  }

  /** The Contact value holds one segment per contact and the separators, nothing more. */
  lemma ContactFieldLength(p: FhirPatient)
    requires p.contact.Some? && |p.contact.value| > 0
    ensures |GetFieldValue(Some(p), Contact)|
      == SumLengths(ContactCodes(p.contact.value)) + 2 * (|p.contact.value| - 1)
  {
    JoinLength(ContactCodes(p.contact.value), ", ");
  }

  /** Identifier and Contact are "" when their list is absent. */
  lemma ListFieldsAbsent(p: FhirPatient)
    ensures p.identifier.None? ==> GetFieldValue(Some(p), Identifier) == ""
    ensures p.contact.None? ==> GetFieldValue(Some(p), Contact) == ""
    ensures p.telecom.None? ==> GetFieldValue(Some(p), Telecom) == ""
  {
  }

  // ---------------------------------------------------------------- scalar fields

  /** Active reads "Yes" exactly when `active` is true, "No" otherwise (also when absent): never "". */
  lemma ActiveFieldYesNo(p: FhirPatient)
    ensures GetFieldValue(Some(p), Active) == "Yes" <==> p.active == Some(true)
    ensures GetFieldValue(Some(p), Active) == "No" <==> p.active != Some(true)
    ensures GetFieldValue(Some(p), Active) != ""
  {
  }

  /** MultipleBirth is the decimal numeral of the integer when present, and "" exactly when absent. */
  lemma MultipleBirthField(p: FhirPatient)
    ensures p.multipleBirthInteger.Some? ==>
      IsDecimalOf(GetFieldValue(Some(p), MultipleBirth), p.multipleBirthInteger.value)
    ensures GetFieldValue(Some(p), MultipleBirth) == "" <==> p.multipleBirthInteger.None?
  {
    if p.multipleBirthInteger.Some? {
      IntToDecimalCorrect(p.multipleBirthInteger.value);
    }
  }

  /** The pass-through fields show the underlying value, or "" when it (or its parent record) is absent. */
  lemma PlainFieldsPassThrough(p: FhirPatient, v: string)
    ensures p.id == Some(v) ==> GetFieldValue(Some(p), Id) == v
    ensures p.id.None? ==> GetFieldValue(Some(p), Id) == ""
    ensures p.gender == Some(v) ==> GetFieldValue(Some(p), Gender) == v
    ensures p.gender.None? ==> GetFieldValue(Some(p), Gender) == ""
    ensures p.birthDate == Some(v) ==> GetFieldValue(Some(p), BirthDate) == v
    ensures p.birthDate.None? ==> GetFieldValue(Some(p), BirthDate) == ""
    ensures p.resourceType == Some(v) ==> GetFieldValue(Some(p), ResourceType) == v
    ensures p.resourceType.None? ==> GetFieldValue(Some(p), ResourceType) == ""
    ensures p.meta.Some? && p.meta.value.lastUpdated == Some(v) ==> GetFieldValue(Some(p), LastUpdated) == v
    ensures p.meta.None? || p.meta.value.lastUpdated.None? ==> GetFieldValue(Some(p), LastUpdated) == ""
    ensures p.text.Some? && p.text.value.status == Some(v) ==> GetFieldValue(Some(p), TextStatus) == v
    ensures p.text.None? || p.text.value.status.None? ==> GetFieldValue(Some(p), TextStatus) == ""
  {
  }

  // ---------------------------------------------------------------- FieldRow

  /** What a row may be given: a string, a number, `undefined` or `null`. */
  datatype FieldValue = Str(s: string) | Num(n: int) | Undefined | Null

  /** What the row's value cell shows: the value itself, or the "N/A" chip. */
  datatype Cell = Shown(v: FieldValue) | NotAvailable

  /** The placeholder stands in for `undefined`, `null` and the empty string, and only for those. */
  function FieldRowCell(value: FieldValue): (r: Cell)
    ensures r.NotAvailable? <==> value in {Undefined, Null, Str("")}
    ensures r.Shown? ==> r.v == value
  {
    if value.Undefined? || value.Null? || value == Str("") then NotAvailable else Shown(value)
  }

  /** The Active row never shows N/A. */
  lemma ActiveRowNeverNotAvailable(p: FhirPatient)
    ensures FieldRowCell(Str(GetFieldValue(Some(p), Active))).Shown?
  {
    ActiveFieldYesNo(p);
  }

  /** The Multiple Birth row shows N/A exactly when the integer is absent. */
  lemma MultipleBirthRowNotAvailableIff(p: FhirPatient)
    ensures FieldRowCell(Str(GetFieldValue(Some(p), MultipleBirth))).NotAvailable?
      <==> p.multipleBirthInteger.None?
  {
    MultipleBirthField(p);
  }

  /** The Telecom row shows N/A exactly when there are no telecom entries. */
  lemma TelecomRowNotAvailableIff(p: FhirPatient)
    ensures FieldRowCell(Str(GetFieldValue(Some(p), Telecom))).NotAvailable?
      <==> p.telecom.None? || p.telecom == Some([])
  {
    TelecomFieldEmptyIff(p);
  }
}
