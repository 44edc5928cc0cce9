/** The personal-details section of the form
    (src/components/AttendanceForm/CombinedInfoSection.tsx): how each input's change event
    updates the form, the digits-only NIP (civil-servant number) filter, and the fixed
    region and department options. */
module InfoSection {
  import opened Text
  import Form

  const Regions: seq<string> := [
    "Prov. Kep. Bangka Belitung",
    "Kota Pangkalpinang",
    "Kab. Bangka",
    "Kab. Belitung",
    "Kab. Bangka Selatan",
    "Kab. Bangka Tengah",
    "Kab. Bangka Barat",
    "Kab. Belitung Timur"
  ]

  const Departments: seq<string> := [
    "Sumber Daya Air",
    "Cipta Karya, Perumahan, & Permukiman",
    "Bina Marga",
    "Jasa Konstruksi",
    "Tata Ruang & Pertanahan"
  ]

  predicate Distinct(options: seq<string>) {
    forall i, j :: 0 <= i < j < |options| ==> options[i] != options[j]
  }

  lemma OptionLists()
    ensures |Regions| == 8 && Distinct(Regions)
    ensures |Departments| == 5 && Distinct(Departments)
  {
  }

  /** handleNipChange's test: `value === "" || /^\d+$/.test(value)`. */
  predicate NipEditAccepted(value: string) {
    value == "" || (|value| > 0 && AllAsciiDigits(value))
  }

  /** The NIP after a change event carrying `value`: the value if the test accepts it,
      otherwise the NIP as it was. */
  function NipAfterEdit(nip: string, value: string): (r: string)
    ensures r == value || r == nip
    ensures AllAsciiDigits(nip) ==> AllAsciiDigits(r)
  {
    if NipEditAccepted(value) then value else nip
  }

  /** The test accepts exactly the strings of ASCII digits, the empty string included. */
  lemma NipEditAcceptedIff(value: string)
    ensures NipEditAccepted(value) <==> AllAsciiDigits(value)
  {
  }

  /** An edit takes effect iff it is digits only; a rejected edit leaves the NIP as it was. */
  lemma NipEditOutcome(nip: string, value: string)
    ensures AllAsciiDigits(value) ==> NipAfterEdit(nip, value) == value
    ensures !AllAsciiDigits(value) ==> NipAfterEdit(nip, value) == nip
  {
  }

  /** A full-width digit or a minus sign is not a digit for the filter. */
  lemma NonAsciiDigitsRejected(nip: string)
    ensures NipAfterEdit(nip, "12\U{FF13}") == nip
    ensures NipAfterEdit(nip, "-1") == nip
  {
    assert !IsAsciiDigit("12\U{FF13}"[2]);
    assert !IsAsciiDigit("-1"[0]);
  }

  lemma NipEditIdempotent(nip: string, value: string)
    ensures NipAfterEdit(NipAfterEdit(nip, value), value) == NipAfterEdit(nip, value)
  {
  }

  /** A change event of one of the section's inputs. The two selections report the chosen
      option's value. */
  datatype InfoEdit =
    | EditName(value: string)
    | EditNip(value: string)
    | EditPosition(value: string)
    | EditInstitution(value: string)
    | SelectRegion(value: string)
    | SelectDepartment(value: string)

  /** The form after one change event: the NIP goes through the filter, every other input
      hands its value to its setter unchanged. */
  function ApplyEdit(ff: Form.FormFields, e: InfoEdit): (r: Form.FormFields)
    ensures r.signature == ff.signature
    ensures AllAsciiDigits(ff.nip) ==> AllAsciiDigits(r.nip)
    ensures !e.EditNip? ==> r.nip == ff.nip
    ensures e.EditNip? ==> r == ff.(nip := NipAfterEdit(ff.nip, e.value))
    ensures e.EditName? ==> r == ff.(name := e.value)
    ensures e.EditPosition? ==> r == ff.(position := e.value)
    ensures e.EditInstitution? ==> r == ff.(institution := e.value)
    ensures e.SelectRegion? ==> r == ff.(region := e.value)
    ensures e.SelectDepartment? ==> r == ff.(department := e.value)
  {
    match e
    case EditName(v) => ff.(name := v)
    case EditNip(v) => ff.(nip := NipAfterEdit(ff.nip, v))
    case EditPosition(v) => ff.(position := v)
    case EditInstitution(v) => ff.(institution := v)
    case SelectRegion(v) => ff.(region := v)
    case SelectDepartment(v) => ff.(department := v)
  }

  /** The form after a sequence of change events, first to last. */
  function ApplyEdits(ff: Form.FormFields, edits: seq<InfoEdit>): Form.FormFields
    decreases |edits|
  {
    if edits == [] then ff else ApplyEdits(ApplyEdit(ff, edits[0]), edits[1..])
  }

  /** Whatever the user types, a NIP that starts digits only (the form starts it at "")
      stays digits only, and the signature is never touched by this section. */
  lemma {:induction false} NipStaysDigits(ff: Form.FormFields, edits: seq<InfoEdit>)
    requires AllAsciiDigits(ff.nip)
    ensures AllAsciiDigits(ApplyEdits(ff, edits).nip)
    ensures ApplyEdits(ff, edits).signature == ff.signature
    decreases |edits|
  {
    if edits != [] {
      NipStaysDigits(ApplyEdit(ff, edits[0]), edits[1..]);
    }
  }

  predicate Offered(options: seq<string>, v: string) {
    v == "" || v in options
  }

  predicate SelectionsOffered(edits: seq<InfoEdit>) {
    forall i :: 0 <= i < |edits| ==>
      (edits[i].SelectRegion? ==> edits[i].value in Regions)
      && (edits[i].SelectDepartment? ==> edits[i].value in Departments)
  }

  /** When the selections only ever report offered options, region and department stay
      either unset or one of the offered options. */
  lemma {:induction false} SelectionsStayOffered(ff: Form.FormFields, edits: seq<InfoEdit>)
    requires Offered(Regions, ff.region) && Offered(Departments, ff.department)
    requires SelectionsOffered(edits)
    ensures Offered(Regions, ApplyEdits(ff, edits).region)
    ensures Offered(Departments, ApplyEdits(ff, edits).department)
    decreases |edits|
  {
    if edits != [] {
      var next := ApplyEdit(ff, edits[0]);
      assert SelectionsOffered(edits[1..]) by {
        forall i | 0 <= i < |edits[1..]| ensures
          (edits[1..][i].SelectRegion? ==> edits[1..][i].value in Regions)
          && (edits[1..][i].SelectDepartment? ==> edits[1..][i].value in Departments)
        {
          assert edits[1..][i] == edits[i + 1];
        }
      }
      SelectionsStayOffered(next, edits[1..]);
    }
  }

  /** A NIP the filter let through passes validation as soon as it holds one digit. */
  lemma FilteredNipIsNotMissing(ff: Form.FormFields)
    requires AllAsciiDigits(ff.nip) && ff.nip != ""
    ensures !Form.Missing(ff, Form.Nip)
  {
    TrimEmptyIffBlank(ff.nip);
    assert !IsJsWhitespace(ff.nip[0]);
  }
}
