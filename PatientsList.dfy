/** The landing page's patient table: which entries become rows, and what each row shows. */
module PatientsList {
  import opened Wrappers
  import opened Text
  import opened FhirTypes
  import PatientDetails

  /** One table row: the three text cells and the path the View button opens. */
  datatype Row = Row(name: string, gender: string, birthDate: string, link: string)

  /** The table (header included) is drawn only for a loaded bundle whose entry list is non-empty. */
  predicate ShowsTable(patients: Option<FhirBundle>) {
    patients.Some? && patients.value.entry.Some? && |patients.value.entry.value| > 0
  }

  /** `entry.resource?.resourceType === "Patient"`. */
  predicate IsPatientEntry(e: FhirEntry) {
    e.resource.Some? && e.resource.value.resourceType == Some(FhirResourceType.Patient.Name())
  }

  /** `a || "-"` for a string: the dash replaces the empty string. */
  function OrDash(s: string): (r: string)
    ensures r != ""
    ensures s != "" ==> r == s
    ensures s == "" ==> r == "-"
  {
    if s == "" then "-" else s
  }

  /** `${family} ${given}`.trim(), from the first name record or from none. */
  function ListedName(p: FhirPatient): string {
    var first := if p.name.Some? && |p.name.value| > 0 then p.name.value[0] else FhirName(None, None);
    var family := first.family.GetOr("");
    var given := if first.given.Some? then Join(first.given.value, " ") else "";
    Trim(family + " " + given)
  }

  /**
   * The row of one patient. A missing `id` renders as "undefined" in the
   * template literal of the link.
   */
  function RowOf(p: FhirPatient): (r: Row)
    ensures r.name != "" && r.gender != "" && r.birthDate != ""
    ensures ListedName(p) == "" ==> r.name == "-"
    ensures ListedName(p) != "" ==> r.name == ListedName(p)
    ensures p.gender.None? || p.gender == Some("") ==> r.gender == "-"
    ensures p.gender.Some? && p.gender.value != "" ==> r.gender == p.gender.value
    ensures p.birthDate.None? || p.birthDate == Some("") ==> r.birthDate == "-"
    ensures p.birthDate.Some? && p.birthDate.value != "" ==> r.birthDate == p.birthDate.value
    ensures r.link == "/patients/" + p.id.GetOr("undefined")
  {
    Row(OrDash(ListedName(p)), OrDash(p.gender.GetOr("")), OrDash(p.birthDate.GetOr("")),
        "/patients/" + p.id.GetOr("undefined"))
  }

  /** `entries.filter(IsPatientEntry)`, each kept entry's resource taken out. */
  function PatientsOf(entries: seq<FhirEntry>): (ps: seq<FhirPatient>)
    ensures |ps| <= |entries|
    ensures (forall k :: 0 <= k < |entries| ==> IsPatientEntry(entries[k])) ==> |ps| == |entries|
  {
    if entries == [] then []
    else if IsPatientEntry(entries[0]) then [entries[0].resource.value] + PatientsOf(entries[1..])
    else PatientsOf(entries[1..])
  }

  /** The filter followed by the row map. */
  function PatientRows(entries: seq<FhirEntry>): (rows: seq<Row>)
    ensures |rows| <= |entries|
    ensures |rows| == |PatientsOf(entries)| == |PatientIndices(entries, 0)|
  {
    PatientIndicesCount(entries, 0);
    var ps := PatientsOf(entries);
    seq(|ps|, k requires 0 <= k < |ps| => RowOf(ps[k]))
  }

  /** Positions of the Patient entries, in increasing order: an independent description of the filter. */
  ghost predicate PatientPositions(entries: seq<FhirEntry>, idx: seq<nat>) {
    (forall k :: 0 <= k < |idx| ==> idx[k] < |entries| && IsPatientEntry(entries[idx[k]])) &&
    (forall k, l :: 0 <= k < l < |idx| ==> idx[k] < idx[l]) &&
    (forall j :: 0 <= j < |entries| && IsPatientEntry(entries[j]) ==> j in idx)
  }

  /** The positions of the Patient entries, front to back, numbered from `from`. */
  function PatientIndices(entries: seq<FhirEntry>, from: nat): seq<nat> {
    if entries == [] then []
    else (if IsPatientEntry(entries[0]) then [from] else []) + PatientIndices(entries[1..], from + 1)
  }

  /** There are as many rows as Patient positions. */
  lemma {:induction false} PatientIndicesCount(entries: seq<FhirEntry>, from: nat)
    ensures |PatientIndices(entries, from)| == |PatientsOf(entries)|
  {
    if entries != [] {
      PatientIndicesCount(entries[1..], from + 1);
    }
  }

  /** `PatientIndices` lists only Patient positions ... */
  lemma {:induction false} PatientIndicesValid(entries: seq<FhirEntry>, from: nat)
    ensures forall k :: 0 <= k < |PatientIndices(entries, from)| ==>
      from <= PatientIndices(entries, from)[k] < from + |entries| &&
      IsPatientEntry(entries[PatientIndices(entries, from)[k] - from])
  {
    if entries != [] {
      var tail := entries[1..];
      PatientIndicesValid(tail, from + 1);
      var idx', idx := PatientIndices(tail, from + 1), PatientIndices(entries, from);
      var d := if IsPatientEntry(entries[0]) then 1 else 0;
      forall k | 0 <= k < |idx|
        ensures from <= idx[k] < from + |entries| && IsPatientEntry(entries[idx[k] - from])
      {
        if k >= d {
          assert idx[k] == idx'[k - d];
          assert tail[idx'[k - d] - (from + 1)] == entries[idx[k] - from];
        }
      }
    }
  }

  /** ... in increasing order ... */
  lemma {:induction false} PatientIndicesIncreasing(entries: seq<FhirEntry>, from: nat)
    ensures forall k, l :: 0 <= k < l < |PatientIndices(entries, from)| ==>
      PatientIndices(entries, from)[k] < PatientIndices(entries, from)[l]
  {
    if entries != [] {
      var tail := entries[1..];
      PatientIndicesIncreasing(tail, from + 1);
      PatientIndicesValid(tail, from + 1);
      var idx', idx := PatientIndices(tail, from + 1), PatientIndices(entries, from);
      var d := if IsPatientEntry(entries[0]) then 1 else 0;
      forall k, l | 0 <= k < l < |idx| ensures idx[k] < idx[l] {
        assert idx[l] == idx'[l - d];
        if k >= d { assert idx[k] == idx'[k - d]; }
      }
    }
  }

  /** ... and every one of them. */
  lemma {:induction false} PatientIndicesComplete(entries: seq<FhirEntry>, from: nat)
    ensures forall j :: 0 <= j < |entries| && IsPatientEntry(entries[j]) ==> from + j in PatientIndices(entries, from)
  {
    if entries != [] {
      var tail := entries[1..];
      PatientIndicesComplete(tail, from + 1);
      var idx', idx := PatientIndices(tail, from + 1), PatientIndices(entries, from);
      var head := if IsPatientEntry(entries[0]) then [from] else [];
      assert idx == head + idx';
      forall j | 0 <= j < |entries| && IsPatientEntry(entries[j]) ensures from + j in idx {
        if j > 0 {
          assert tail[j - 1] == entries[j];
          assert (from + 1) + (j - 1) in idx';
        }
      }
    }
  }

  /** Together: the indices from 0 are exactly the Patient positions, in order. */
  lemma PatientIndicesArePositions(entries: seq<FhirEntry>)
    ensures PatientPositions(entries, PatientIndices(entries, 0))
  {
    PatientIndicesValid(entries, 0);
    PatientIndicesIncreasing(entries, 0);
    PatientIndicesComplete(entries, 0);
  }

  /** The `k`th kept patient is the resource of the `k`th Patient entry. */
  lemma {:induction false} PatientsOfInOrder(entries: seq<FhirEntry>, from: nat, k: nat)
    requires k < |PatientsOf(entries)|
    ensures k < |PatientIndices(entries, from)|
    ensures from <= PatientIndices(entries, from)[k] < from + |entries|
    ensures IsPatientEntry(entries[PatientIndices(entries, from)[k] - from])
    ensures PatientsOf(entries)[k] == entries[PatientIndices(entries, from)[k] - from].resource.value
  {
    var tail := entries[1..];
    var d := if IsPatientEntry(entries[0]) then 1 else 0;
    var idx', idx := PatientIndices(tail, from + 1), PatientIndices(entries, from);
    var ps', ps := PatientsOf(tail), PatientsOf(entries);
    PatientIndicesCount(entries, from);
    if k >= d {
      PatientsOfInOrder(tail, from + 1, k - d);
      assert idx[k] == idx'[k - d];
      assert ps[k] == ps'[k - d];
      assert tail[idx'[k - d] - (from + 1)] == entries[idx[k] - from];
    }
  }

  /**
   * Row `k` is the row of the `k`th Patient entry in bundle order: with
   * `PatientIndicesArePositions`, the rows are the Patient entries, none
   * dropped, none reordered.
   */
  lemma PatientRowsInOrder(entries: seq<FhirEntry>, k: nat)
    requires k < |PatientRows(entries)|
    ensures k < |PatientIndices(entries, 0)|
    ensures PatientIndices(entries, 0)[k] < |entries|
    ensures IsPatientEntry(entries[PatientIndices(entries, 0)[k]])
    ensures PatientRows(entries)[k] == RowOf(entries[PatientIndices(entries, 0)[k]].resource.value)
  {
    PatientsOfInOrder(entries, 0, k);
  }

  /** The rows drawn for the store's current bundle: none unless the table is shown. */
  function TableRows(patients: Option<FhirBundle>): (rows: seq<Row>)
    ensures !ShowsTable(patients) ==> rows == []
    ensures ShowsTable(patients) ==> rows == PatientRows(patients.value.entry.value)
    ensures ShowsTable(patients) ==> |rows| <= |patients.value.entry.value|
  {
    if ShowsTable(patients) then PatientRows(patients.value.entry.value) else []
  }

  /** The list's name cell agrees with the details page's Name field, with "-" for "". */
  lemma NameCellMatchesDetails(p: FhirPatient)
    ensures RowOf(p).name == OrDash(PatientDetails.GetFieldValue(Some(p), PatientDetails.Name))
  {
    var d := PatientDetails.GetFieldValue(Some(p), PatientDetails.Name);
    if p.name.Some? && |p.name.value| > 0 {
      var n := p.name.value[0];
      assert d == PatientDetails.NameText(n);
      assert ListedName(p) == PatientDetails.NameText(n);
    } else {
      assert d == "";
      BlankNameIsEmpty();
      assert ListedName(p) == Trim(" ");
    }
  }

  lemma BlankNameIsEmpty()
    ensures Trim(" ") == ""
  {
    assert " "[1..] == "";
  }
}
