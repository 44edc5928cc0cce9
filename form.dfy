/** The attendance form (src/components/AttendanceForm/AttendanceFormContainer.tsx): seven
    text fields, the validation that fills an error map, and the submit / success-dialog /
    reset cycle around the record store. */
module Form {
  import opened Text
  import opened Wrappers
  import Attendance

  datatype FormFields = FormFields(
    name: string,
    nip: string,
    position: string,
    institution: string,
    region: string,
    department: string,
    signature: string)

  const EmptyForm: FormFields := FormFields("", "", "", "", "", "", "")

  datatype Field = Name | Nip | Position | Institution | Region | Department | Signature

  /** The key each field's error is stored under (also the element id of its input). */
  function Key(f: Field): string {
    match f
    case Name => "name"
    case Nip => "nip"
    case Position => "position"
    case Institution => "institution"
    case Region => "region"
    case Department => "department"
    case Signature => "signature"
  }

  function Message(f: Field): string {
    match f
    case Name => "Nama harus diisi"
    case Nip => "NIP harus diisi"
    case Position => "Jabatan harus diisi"
    case Institution => "Instansi harus diisi"
    case Region => "Wilayah harus dipilih"
    case Department => "Bidang/Urusan harus dipilih"
    case Signature => "Tanda tangan harus diisi"
  }

  /** The value the form holds for a field. */
  function Value(ff: FormFields, f: Field): string {
    match f
    case Name => ff.name
    case Nip => ff.nip
    case Position => ff.position
    case Institution => ff.institution
    case Region => ff.region
    case Department => ff.department
    case Signature => ff.signature
  }

  /** When a field counts as not filled in: the four typed fields after trimming, the two
      selections and the signature as given. */
  function Missing(ff: FormFields, f: Field): (missing: bool)
    ensures Value(ff, f) == "" ==> missing
    ensures f == Region || f == Department || f == Signature ==> (missing <==> Value(ff, f) == "")
  {
    match f
    case Name => Trim(ff.name) == ""
    case Nip => Trim(ff.nip) == ""
    case Position => Trim(ff.position) == ""
    case Institution => Trim(ff.institution) == ""
    case Region => ff.region == ""
    case Department => ff.department == ""
    case Signature => ff.signature == ""
  }

  predicate IsComplete(ff: FormFields) {
    forall f: Field :: !Missing(ff, f)
  }

  /** Distinct fields are reported under distinct keys. */
  lemma KeysDistinct()
    ensures forall a: Field, b: Field :: Key(a) == Key(b) ==> a == b
  {
  }

  /** A typed field made only of whitespace counts as missing, a selection or signature
      counts as missing only when it is exactly empty. */
  lemma MissingMeaning(ff: FormFields)
    ensures Missing(ff, Name) <==> AllWhitespace(ff.name)
    ensures Missing(ff, Nip) <==> AllWhitespace(ff.nip)
    ensures Missing(ff, Position) <==> AllWhitespace(ff.position)
    ensures Missing(ff, Institution) <==> AllWhitespace(ff.institution)
    ensures Missing(ff, Region) <==> ff.region == []
    ensures Missing(ff, Department) <==> ff.department == []
    ensures Missing(ff, Signature) <==> ff.signature == []
  {
    TrimEmptyIffBlank(ff.name);
    TrimEmptyIffBlank(ff.nip);
    TrimEmptyIffBlank(ff.position);
    TrimEmptyIffBlank(ff.institution);
  }

  /** A blank region is missing, a region of one space is not: selections are not trimmed. */
  lemma SelectionsAreNotTrimmed(ff: FormFields)
    requires ff.region == " " && ff.name == " "
    ensures !Missing(ff, Region) && Missing(ff, Name)
  {
    assert TrimStart(" ") == TrimStart("");
  }

  /** An error map keyed exactly by the missing fields is empty iff no field is missing. */
  lemma ErrorsEmptyIffComplete(ff: FormFields, errors: map<string, string>)
    requires forall f: Field :: Key(f) in errors <==> Missing(ff, f)
    requires forall k :: k in errors ==> exists f: Field :: Key(f) == k
    ensures |errors| == 0 <==> IsComplete(ff)
  {
    if |errors| == 0 {
      forall f: Field ensures !Missing(ff, f) {
        assert Key(f) !in errors;
      }
    } else {
      var k :| k in errors;
      var f: Field :| Key(f) == k;
      assert Missing(ff, f);
    }
  }

  /** The order in which validateForm checks the fields. */
  const CheckOrder: seq<Field> := [Name, Nip, Position, Institution, Region, Department, Signature]

  lemma CheckOrderCoversAll(f: Field)
    ensures f in CheckOrder
  {
    match f
    case Name => assert CheckOrder[0] == f;
    case Nip => assert CheckOrder[1] == f;
    case Position => assert CheckOrder[2] == f;
    case Institution => assert CheckOrder[3] == f;
    case Region => assert CheckOrder[4] == f;
    case Department => assert CheckOrder[5] == f;
    case Signature => assert CheckOrder[6] == f;
  }

  /** One check: a missing field's message is stored under its key. */
  function Checked(ff: FormFields, before: map<string, string>, g: Field): map<string, string> {
    if Missing(ff, g) then before[Key(g) := Message(g)] else before
  }

  /** The error map once the fields in `checked` have been checked, in that order. */
  function ErrorsAfter(ff: FormFields, checked: seq<Field>): map<string, string>
    decreases |checked|
  {
    if checked == [] then map[]
    else Checked(ff, ErrorsAfter(ff, checked[..|checked| - 1]), checked[|checked| - 1])
  }

  /** One entry, with the field's message, per missing field among `checked`, and nothing else. */
  ghost predicate ErrorsFor(ff: FormFields, checked: seq<Field>, errors: map<string, string>) {
    (forall f: Field :: Key(f) in errors <==> f in checked && Missing(ff, f))
    && (forall f: Field :: Key(f) in errors ==> errors[Key(f)] == Message(f))
    && (forall k :: k in errors ==> exists f: Field :: f in checked && Key(f) == k)
  }

  /** One `if (...) newErrors.<field> = ...` step keeps ErrorsFor. */
  lemma CheckStep(ff: FormFields, checked: seq<Field>, errors: map<string, string>, g: Field)
    requires ErrorsFor(ff, checked, errors) && g !in checked
    ensures ErrorsFor(ff, checked + [g], if Missing(ff, g) then errors[Key(g) := Message(g)] else errors)
  {
    var next := if Missing(ff, g) then errors[Key(g) := Message(g)] else errors;
    CheckStepKeys(ff, checked, errors, g, next);
    CheckStepMessages(errors, g, Missing(ff, g), next);
    CheckStepOnlyFields(checked, errors, g, Missing(ff, g), next);
  }

  /** After a check step the keys present are exactly those of the missing fields checked. */
  lemma CheckStepKeys(ff: FormFields, checked: seq<Field>, errors: map<string, string>, g: Field,
                      next: map<string, string>)
    requires forall f: Field :: Key(f) in errors <==> f in checked && Missing(ff, f)
    requires next == if Missing(ff, g) then errors[Key(g) := Message(g)] else errors
    ensures forall f: Field :: Key(f) in next <==> f in checked + [g] && Missing(ff, f)
  {
    KeysDistinct();
  }

  /** A check step stores each field's own message. */
  lemma CheckStepMessages(errors: map<string, string>, g: Field, missing: bool, next: map<string, string>)
    requires forall f: Field :: Key(f) in errors ==> errors[Key(f)] == Message(f)
    requires next == if missing then errors[Key(g) := Message(g)] else errors
    ensures forall f: Field :: Key(f) in next ==> next[Key(f)] == Message(f)
  {
    KeysDistinct();
  }

  /** A check step adds no key other than the checked field's. */
  lemma CheckStepOnlyFields(checked: seq<Field>, errors: map<string, string>, g: Field, missing: bool,
                            next: map<string, string>)
    requires forall k :: k in errors ==> exists f: Field :: f in checked && Key(f) == k
    requires next == if missing then errors[Key(g) := Message(g)] else errors
    ensures forall k :: k in next ==> exists f: Field :: f in checked + [g] && Key(f) == k
  {
    forall k | k in next ensures exists f: Field :: f in checked + [g] && Key(f) == k {
      if k != Key(g) {
        var f: Field :| f in checked && Key(f) == k;
        assert f in checked + [g];
      } else {
        assert g in checked + [g];
      }
    }
  }

  lemma {:induction false} ErrorsAfterMeaning(ff: FormFields, checked: seq<Field>)
    requires forall i, j :: 0 <= i < j < |checked| ==> checked[i] != checked[j]
    ensures ErrorsFor(ff, checked, ErrorsAfter(ff, checked))
    decreases |checked|
  {
    if checked != [] {
      var init, g := checked[..|checked| - 1], checked[|checked| - 1];
      ErrorsAfterMeaning(ff, init);
      assert checked == init + [g];
      CheckStep(ff, init, ErrorsAfter(ff, init), g);
    }
  }

  /** What validateForm's error map holds: an entry for each missing field and for nothing
      else, each with that field's fixed message; it is empty exactly when the form is
      complete. */
  lemma ValidationErrors(ff: FormFields)
    ensures forall f: Field :: Key(f) in ErrorsAfter(ff, CheckOrder) <==> Missing(ff, f)
    ensures forall f: Field :: Key(f) in ErrorsAfter(ff, CheckOrder) ==>
      ErrorsAfter(ff, CheckOrder)[Key(f)] == Message(f)
    ensures forall k :: k in ErrorsAfter(ff, CheckOrder) ==> exists f: Field :: Key(f) == k
    ensures |ErrorsAfter(ff, CheckOrder)| == 0 <==> IsComplete(ff)
  {
    ErrorsAfterMeaning(ff, CheckOrder);
    forall f: Field ensures f in CheckOrder { CheckOrderCoversAll(f); }
    ErrorsEmptyIffComplete(ff, ErrorsAfter(ff, CheckOrder));
  }

  /** Checking one more field performs one more check. */
  lemma ErrorsAfterSnoc(ff: FormFields, checked: seq<Field>, g: Field, next: seq<Field>)
    requires next == checked + [g]
    ensures ErrorsAfter(ff, next) == Checked(ff, ErrorsAfter(ff, checked), g)
  {
    assert next[..|checked|] == checked;
  }

  /** The check order's error map, one check after another. */
  lemma CheckOrderErrors(ff: FormFields)
    ensures ErrorsAfter(ff, CheckOrder)
      == Checked(ff, Checked(ff, Checked(ff, Checked(ff, Checked(ff, Checked(ff, Checked(ff,
           map[], Name), Nip), Position), Institution), Region), Department), Signature)
  {
    ErrorsAfterSnoc(ff, [], Name, [Name]);
    ErrorsAfterSnoc(ff, [Name], Nip, [Name, Nip]);
    ErrorsAfterSnoc(ff, [Name, Nip], Position, [Name, Nip, Position]);
    ErrorsAfterSnoc(ff, [Name, Nip, Position], Institution, [Name, Nip, Position, Institution]);
    ErrorsAfterSnoc(ff, [Name, Nip, Position, Institution], Region, [Name, Nip, Position, Institution, Region]);
    ErrorsAfterSnoc(ff, [Name, Nip, Position, Institution, Region], Department,
                    [Name, Nip, Position, Institution, Region, Department]);
    ErrorsAfterSnoc(ff, [Name, Nip, Position, Institution, Region, Department], Signature, CheckOrder);
  }

  /** A source `if` whose test is the field's missing-test performs one check. */
  lemma CheckedBy(ff: FormFields, before: map<string, string>, g: Field, test: bool, after: map<string, string>)
    requires test == Missing(ff, g)
    requires after == if test then before[Key(g) := Message(g)] else before
    ensures after == Checked(ff, before, g)
  {
  }

  /** validateForm's error map, filled field by field. */
  method BuildErrors(ff: FormFields) returns (errors: map<string, string>)
    ensures errors == ErrorsAfter(ff, CheckOrder)
  {
    errors := map[];
    ghost var before := errors;
    if Trim(ff.name) == "" { errors := errors[Key(Name) := Message(Name)]; }
    CheckedBy(ff, before, Name, Trim(ff.name) == "", errors);
    ghost var afterName := errors;
    if Trim(ff.nip) == "" { errors := errors[Key(Nip) := Message(Nip)]; }
    CheckedBy(ff, afterName, Nip, Trim(ff.nip) == "", errors);
    ghost var afterNip := errors;
    if Trim(ff.position) == "" { errors := errors[Key(Position) := Message(Position)]; }
    CheckedBy(ff, afterNip, Position, Trim(ff.position) == "", errors);
    ghost var afterPosition := errors;
    if Trim(ff.institution) == "" { errors := errors[Key(Institution) := Message(Institution)]; }
    CheckedBy(ff, afterPosition, Institution, Trim(ff.institution) == "", errors);
    ghost var afterInstitution := errors;
    if ff.region == "" { errors := errors[Key(Region) := Message(Region)]; }
    CheckedBy(ff, afterInstitution, Region, ff.region == "", errors);
    ghost var afterRegion := errors;
    if ff.department == "" { errors := errors[Key(Department) := Message(Department)]; }
    CheckedBy(ff, afterRegion, Department, ff.department == "", errors);
    ghost var afterDepartment := errors;
    if ff.signature == "" { errors := errors[Key(Signature) := Message(Signature)]; }
    CheckedBy(ff, afterDepartment, Signature, ff.signature == "", errors);
    CheckOrderErrors(ff);
  }

  /** The record handleSubmit hands to saveAttendance: no id, no creation time. */
  function Submitted(ff: FormFields): (d: Attendance.AttendanceData)
    ensures Attendance.InsertPayload(d) ==
      Attendance.InsertRow(ff.name, ff.nip, ff.position, ff.institution, ff.region, ff.department, ff.signature)
    ensures d.id == None && d.createdAt == None
  {
    Attendance.AttendanceData(ff.name, ff.nip, ff.position, ff.institution, ff.region,
                              ff.department, ff.signature, None, None)
  }

  datatype SubmitOutcome =
    | Rejected    // validation failed; nothing was saved
    | Saved       // the store reported success; the success dialog opens
    | SaveFailed  // the store reported failure; an error notification is shown

  class FormContainer {
    var name: string
    var nip: string
    var position: string
    var institution: string
    var region: string
    var department: string
    var signature: string
    var errors: map<string, string>
    var isSubmitting: bool
    var showSuccess: bool

    function Fields(): FormFields
      reads this
    {
      FormFields(name, nip, position, institution, region, department, signature)
    }

    constructor ()
      ensures Fields() == EmptyForm && errors == map[]
      ensures !isSubmitting && !showSuccess
    {
      name, nip, position, institution := "", "", "", "";
      region, department, signature := "", "", "";
      errors := map[];
      isSubmitting, showSuccess := false, false;
    }

    /** validateForm: records the error map and reports whether it is empty. */
    method ValidateForm() returns (ok: bool)
      modifies this`errors
      ensures ok <==> IsComplete(Fields())
      ensures ok <==> errors == map[]
      ensures forall f: Field :: Key(f) in errors <==> Missing(Fields(), f)
      ensures forall f: Field :: Key(f) in errors ==> errors[Key(f)] == Message(f)
      ensures forall k :: k in errors ==> exists f: Field :: Key(f) == k
    {
      var newErrors := BuildErrors(Fields());
      ValidationErrors(Fields());
      errors := newErrors;
      ok := |newErrors| == 0;
    }

    /** handleSubmit. The clock readings and the hosted backend's reply are passed on to the
        store; `sent` is what the store sent to the hosted table, if anything. */
    method HandleSubmit(store: Attendance.AttendanceService, nowMillis: nat, isoNow: string,
                        reply: Attendance.RemoteReply)
      returns (outcome: SubmitOutcome, sent: Option<Attendance.InsertRow>)
      modifies this, store
      ensures Fields() == old(Fields())
      ensures forall f: Field :: Key(f) in errors <==> Missing(Fields(), f)
      ensures forall f: Field :: Key(f) in errors ==> errors[Key(f)] == Message(f)
      ensures forall k :: k in errors ==> exists f: Field :: Key(f) == k
      ensures outcome == Rejected <==> !IsComplete(Fields())
      // validation failure: return before anything is saved or any flag changes
      ensures outcome == Rejected ==>
        unchanged(store) && sent == None &&
        isSubmitting == old(isSubmitting) && showSuccess == old(showSuccess)
      // otherwise the submitting flag always ends false
      ensures outcome != Rejected ==> !isSubmitting
      ensures outcome == Saved ==> showSuccess
      ensures outcome == SaveFailed ==> showSuccess == old(showSuccess)
      // what the store did with the submitted record
      ensures outcome != Rejected && store.mockMode ==>
        outcome == Saved && sent == None &&
        store.mockAttendances ==
          [Attendance.Stamped(Submitted(Fields()), nowMillis, isoNow)] + old(store.mockAttendances)
      ensures outcome != Rejected && !store.mockMode ==>
        sent == Some(Attendance.InsertPayload(Submitted(Fields()))) &&
        store.mockAttendances == old(store.mockAttendances) &&
        (outcome == Saved <==> reply.Rows?)
    {
      var ok := ValidateForm();
      if !ok {
        return Rejected, None;
      }
      isSubmitting := true;
      var result;
      result, sent := store.SaveAttendance(Submitted(Fields()), nowMillis, isoNow, reply);
      if result.Success? {
        showSuccess := true;
        outcome := Saved;
      } else {
        outcome := SaveFailed;
      }
      isSubmitting := false;
    }

    /** resetForm: every field back to "" and no errors. The new state does not depend on
        the old one, so resetting twice is resetting once. */
    method ResetForm()
      modifies this
      ensures Fields() == EmptyForm && errors == map[]
      ensures isSubmitting == old(isSubmitting) && showSuccess == old(showSuccess)
    {
      name := "";
      nip := "";
      position := "";
      institution := "";
      region := "";
      department := "";
      signature := "";
      errors := map[];
    }

    /** handleSubmitAnother: hide the success dialog, then reset. */
    method HandleSubmitAnother()
      modifies this
      ensures !showSuccess
      ensures Fields() == EmptyForm && errors == map[]
      ensures isSubmitting == old(isSubmitting)
    {
      showSuccess := false;
      ResetForm();
    }

    /** The success dialog's close action. */
    method CloseSuccessDialog()
      modifies this`showSuccess
      ensures !showSuccess
    {
      showSuccess := false;
    }
  }

  /** A freshly reset form fails validation on every one of the seven fields. */
  lemma EmptyFormMissesEverything(f: Field)
    ensures Missing(EmptyForm, f)
  {
  }
}
