/** The certificate and agency validators as they push blockers, and exactly which assignments they
    accept. */
module AssignmentChecks {
  import opened JsStrings
  import opened ComplianceRows
  import opened Preflight

  // ---------------------------------------------------------------- certificates

  predicate SrmChosen(input: FieldInput, trusted: seq<(string, seq<string>)>) {
    exists i :: && 0 <= i < |trusted| && trusted[i].0 == input.agencyId && input.laboratoryId in trusted[i].1
                && forall j :: 0 <= j < i ==> trusted[j].0 != input.agencyId
  }

  /** What an enabled, required field needs, by its input type. */
  ghost predicate FieldFilled(f: PresetField, input: FieldInput) {
    && (f.inputType == 1 ==> |input.valueIds| == 1)
    && (f.inputType == 2 || f.inputType == 5 ==> input.valueIds != [])
    && (f.inputType == 3 || f.inputType == 4 ==> HasText(input.value))
    && (f.inputType == 4 ==> input.dateOk)
    && (f.inputType == 6 ==> input.valueIds != [] || HasText(input.agencyId))
    && (f.inputType in {1, 2, 5, 6} ==> forall v :: v in input.valueIds ==> (v, true) in f.options)
  }

  ghost predicate FieldAccepted(f: PresetField, a: CertificateAssignment) {
    f.enabled && f.required ==>
      if f.fromSrm then SrmChosen(InputOf(f, a), a.trusted) else FieldFilled(f, InputOf(f, a))
  }

  function InputOf(f: PresetField, a: CertificateAssignment): FieldInput {
    if f.presetId in a.inputs then a.inputs[f.presetId] else NO_INPUT
  }

  /** A certificate from the pool is in effect; any other is to be created from an enabled schema of
      the right type, with a file and all required fields. */
  ghost predicate CertificateAccepted(r: Requirement, a: CertificateAssignment) {
    if HasText(a.poolSn) then a.status == 2
    else
      && a.schema.Schema? && a.schema.enabled && a.schema.certificateLabel == 0 && a.files != []
      && (a.schema.typeId == "" || r.typeId == "" || a.schema.typeId == r.typeId)
      && forall i :: 0 <= i < |a.schema.fields| ==> FieldAccepted(a.schema.fields[i], a)
  }

  lemma {:induction false} FindFirst(agency: string, trusted: seq<(string, seq<string>)>, laboratory: string)
    ensures var found := Find((t: (string, seq<string>)) => t.0 == agency, trusted);
      (found.Returned? && laboratory in found.items[0].1) <==>
        exists i :: && 0 <= i < |trusted| && trusted[i].0 == agency && laboratory in trusted[i].1
                    && forall j :: 0 <= j < i ==> trusted[j].0 != agency
  {
    if trusted != [] && trusted[0].0 != agency {
      FindFirst(agency, trusted[1..], laboratory);
      var rest := trusted[1..];
      if i :| && 0 <= i < |rest| && rest[i].0 == agency && laboratory in rest[i].1
              && forall j :: 0 <= j < i ==> rest[j].0 != agency {
        assert trusted[i + 1] == rest[i];
        forall j | 0 <= j < i + 1 ensures trusted[j].0 != agency { if j > 0 { assert rest[j - 1].0 != agency; } }
      }
      if i :| && 0 <= i < |trusted| && trusted[i].0 == agency && laboratory in trusted[i].1
              && forall j :: 0 <= j < i ==> trusted[j].0 != agency {
        assert rest[i - 1] == trusted[i];
        forall j | 0 <= j < i - 1 ensures rest[j].0 != agency { assert trusted[j + 1].0 != agency; }
      }
    }
  }

  lemma FieldIff(f: PresetField, a: CertificateAssignment)
    ensures FieldCodes(f, InputOf(f, a), a.trusted) == [] <==> FieldAccepted(f, a)
  {
    var input := InputOf(f, a);
    if f.fromSrm {
      FindFirst(input.agencyId, a.trusted, input.laboratoryId);
    } else {
      forall v ensures (v, true) in Filter((o: (string, bool)) => o.1, f.options) <==> (v, true) in f.options {
        FilterMember((o: (string, bool)) => o.1, f.options, (v, true));
      }
    }
  }

  lemma {:induction false} SchemaIff(fields: seq<PresetField>, a: CertificateAssignment)
    ensures SchemaCodes(fields, a) == [] <==> forall i :: 0 <= i < |fields| ==> FieldAccepted(fields[i], a)
  {
    hide FieldCodes, FieldAccepted;
    if fields != [] {
      var n := |fields| - 1;
      SchemaIff(fields[..n], a);
      FieldIff(fields[n], a);
      assert forall i :: 0 <= i < n ==> fields[..n][i] == fields[i];
    }
  }

  /** The certificate validator accepts exactly the acceptable assignments. */
  lemma CertificateValidIff(r: Requirement, a: CertificateAssignment)
    ensures CertificateCodes(r, a) == [] <==> CertificateAccepted(r, a)
  {
    hide SchemaCodes, FieldAccepted;
    if a.schema.Schema? { SchemaIff(a.schema.fields, a); }
  }

  /** The loop over the fields of the schema. */
  method CheckFields(fields: seq<PresetField>, a: CertificateAssignment) returns (blockers: seq<Code>)
    ensures blockers == SchemaCodes(fields, a)
  {
    hide FieldCodes;
    blockers := [];
    for i := 0 to |fields|
      invariant blockers == SchemaCodes(fields[..i], a)
    {
      assert fields[..i + 1][..i] == fields[..i];
      blockers := blockers + FieldCodes(fields[i], InputOf(fields[i], a), a.trusted);
    }
    assert fields[..|fields|] == fields;
  }

  /** `validateCertificateAssignment` */
  method ValidateCertificateAssignment(r: Requirement, a: CertificateAssignment)
    returns (valid: bool, blockers: seq<Code>)
    ensures blockers == CertificateCodes(r, a)
    ensures valid <==> CertificateAccepted(r, a)
  {
    hide CertificateAccepted, FieldCodes, SchemaCodes, HasText;
    CertificateValidIff(r, a);
    blockers := [];
    if HasText(a.poolSn) {
      if a.status != 2 {
        blockers := blockers + [CertificateNotEffective];
      }
      return blockers == [], blockers;
    }
    if a.schema.NoSchema? {
      return false, [CertificateSchemaRequired];
    }
    if !a.schema.enabled {
      blockers := blockers + [CertificateSchemaDisabled];
    }
    if a.schema.certificateLabel != 0 {
      blockers := blockers + [CertificateLabelUnsupported];
    }
    if a.schema.typeId != "" && r.typeId != "" && a.schema.typeId != r.typeId {
      blockers := blockers + [CertificateSchemaMismatch];
    }
    if a.files == [] {
      blockers := blockers + [CertificateFileRequired];
    }
    var fieldBlockers := CheckFields(a.schema.fields, a);
    blockers := blockers + fieldBlockers;
    valid := blockers == [];
  }

  // ---------------------------------------------------------------- agencies

  /** The agency types that the named requirements ask for. */
  const AGENCY_TYPES :=
    map["eurespperson" := 0, "ukrespperson" := 1, "usrespperson" := 2, "manufacturer" := 3, "turespperson" := 4]

  ghost predicate AgencyAccepted(r: Requirement, a: AgencyAssignment) {
    && HasText(a.agencyId) && a.agencyStatus == 0 && (a.applyStatus == 1 || a.applyStatus == 2)
    && (Lower(r.typeCode) in AGENCY_TYPES ==> a.agencyType == AGENCY_TYPES[Lower(r.typeCode)])
  }

  /** `validateAgencyAssignment`: the blockers, and that it accepts exactly the acceptable ones. */
  method ValidateAgencyAssignment(r: Requirement, a: AgencyAssignment) returns (valid: bool, blockers: seq<Code>)
    ensures blockers == AgencyCodes(r, a)
    ensures valid <==> AgencyAccepted(r, a)
  {
    blockers := [];
    if !HasText(a.agencyId) {
      blockers := blockers + [AgencyRequired];
    }
    if a.agencyStatus != 0 {
      blockers := blockers + [AgencyDisabled];
    }
    if a.applyStatus !in [1, 2] {
      blockers := blockers + [AgencyNotApproved];
    }
    var expected := ExpectedAgencyType(r.typeCode);
    if expected != -1 && a.agencyType != expected {
      blockers := blockers + [AgencyTypeMismatch];
    }
    valid := blockers == [];
  }
}
