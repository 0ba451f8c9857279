/** Warning assignments: `validateWarningAssignment` closes the selection under the rules'
    mapping, `buildWarningUpdateBody` closes it again when it compiles the request. */
module WarningRules {
  import opened JsStrings
  import opened OrderedMap

  datatype Value = Value(id: string, enabled: bool, exclusions: seq<string>, mappingPaths: seq<seq<string>>)

  /** `single` stands for field type 1. */
  datatype Field = Field(code: string, enabled: bool, sort: real, single: bool, values: seq<Value>)

  datatype Rules = Rules(certificateTypeCode: string, fields: seq<Field>)

  type Selection = map<string, seq<string>>

  datatype Blocker =
    | RulesRequired
    | RulesMismatch
    | ValueInvalid(code: string, ids: seq<string>)
    | SingleValueOnly(code: string)
    | ValuesConflict(id: string, conflicts: seq<string>)
    | SelectionRequired(code: string)

  datatype Validation = Validation(blockers: seq<Blocker>, selected: Selection, required: seq<string>) {
    predicate Valid() { blockers == [] }
  }

  datatype BuildError =
    | NoRules
    | UnknownValue(code: string)
    | CertificateTypeCodeRequired
    | SkcNamesRequired
    | FieldCodeRequired(field: nat)
    | FieldValueIdRequired(field: nat)

  datatype Body = Body(certificateTypeCode: string, skcNames: seq<string>, fieldList: seq<(string, seq<string>)>)

  datatype Built = Ok(body: Body) | Err(error: BuildError)

  // ---------------------------------------------------------------- rules

  /** Stable insertion by `fieldSort`. */
  function InsertField(sorted: seq<Field>, f: Field): seq<Field> {
    if sorted == [] || sorted[|sorted| - 1].sort <= f.sort then sorted + [f]
    else InsertField(sorted[..|sorted| - 1], f) + [sorted[|sorted| - 1]]
  }

  function SortFields(fields: seq<Field>): seq<Field> {
    if fields == [] then [] else InsertField(SortFields(fields[..|fields| - 1]), fields[|fields| - 1])
  }

  /** The enabled fields in display order; the last one carries the warnings. */
  function ActiveFields(rules: Rules): seq<Field> {
    SortFields(Filter((f: Field) => f.enabled, rules.fields))
  }

  function Regular(fields: seq<Field>): seq<Field>
    requires fields != []
  {
    fields[..|fields| - 1]
  }

  function Warning(fields: seq<Field>): Field
    requires fields != []
  {
    fields[|fields| - 1]
  }

  function EnabledValues(f: Field): seq<Value> { Filter((v: Value) => v.enabled, f.values) }

  function Ids(values: seq<Value>): (r: seq<string>)
    ensures |r| == |values| && forall i :: 0 <= i < |values| ==> r[i] == values[i].id
  {
    seq(|values|, i requires 0 <= i < |values| => values[i].id)
  }

  function EnabledIds(f: Field): seq<string> { Ids(EnabledValues(f)) }

  function Chosen(selection: Selection, code: string): seq<string> {
    if code in selection then selection[code] else []
  }

  /** Some mapping path of the warning names one of the ids. */
  predicate MappedFrom(v: Value, ids: seq<string>) {
    exists p, i :: 0 <= p < |v.mappingPaths| && 0 <= i < |v.mappingPaths[p]| && v.mappingPaths[p][i] in ids
  }

  /** The ids of all enabled values of these fields that `ids` makes mandatory. */
  function Required(values: seq<Value>, ids: seq<string>): seq<string> {
    Ids(Filter((v: Value) => MappedFrom(v, ids), values))
  }

  // ---------------------------------------------------------------- validation

  function Invalid(f: Field, selection: Selection): seq<string> {
    Filter((id: string) => id !in EnabledIds(f), UniqueStrings(Chosen(selection, f.code)))
  }

  function RegularBlockersOf(f: Field, selection: Selection): seq<Blocker> {
    var invalid := Invalid(f, selection);
    (if invalid != [] then [ValueInvalid(f.code, invalid)] else [])
    + (if f.single && |UniqueStrings(Chosen(selection, f.code))| > 1 then [SingleValueOnly(f.code)] else [])
  }

  function RegularBlockers(fields: seq<Field>, selection: Selection): seq<Blocker> {
    if fields == [] then []
    else RegularBlockers(fields[..|fields| - 1], selection) + RegularBlockersOf(fields[|fields| - 1], selection)
  }

  /** The ids selected in these fields, without the empty ones. */
  function RegularIds(fields: seq<Field>, selection: Selection): seq<string> {
    if fields == [] then []
    else AddAll(RegularIds(fields[..|fields| - 1], selection), UniqueStrings(Chosen(selection, fields[|fields| - 1].code)))
  }

  /** The value of an id; among several with that id the last one counts. */
  function ById(values: seq<Value>): map<string, Value> {
    if values == [] then map[] else ById(values[..|values| - 1])[values[|values| - 1].id := values[|values| - 1]]
  }

  function RegularById(fields: seq<Field>): map<string, Value> {
    if fields == [] then map[] else RegularById(fields[..|fields| - 1]) + ById(EnabledValues(fields[|fields| - 1]))
  }

  function Conflicts(id: string, byId: map<string, Value>, ids: seq<string>): seq<string> {
    if id !in byId then [] else Filter((c: string) => c in ids, UniqueStrings(byId[id].exclusions))
  }

  function ConflictBlockers(of: seq<string>, byId: map<string, Value>, ids: seq<string>): seq<Blocker> {
    if of == [] then []
    else
      var id := of[|of| - 1];
      var conflicts := Conflicts(id, byId, ids);
      ConflictBlockers(of[..|of| - 1], byId, ids) + (if conflicts != [] then [ValuesConflict(id, conflicts)] else [])
  }

  function WarningBlockers(ids: seq<string>, f: Field): seq<Blocker> {
    if ids == [] then []
    else
      WarningBlockers(ids[..|ids| - 1], f)
      + (if ids[|ids| - 1] in EnabledIds(f) then [] else [ValueInvalid(f.code, [ids[|ids| - 1]])])
  }

  /** The warnings that were selected and exist, then those the mapping requires. */
  function WarningIds(f: Field, selection: Selection, required: seq<string>): seq<string> {
    AddAll(Filter((id: string) => id in EnabledIds(f), UniqueStrings(Chosen(selection, f.code))), required)
  }

  predicate Mismatch(requirementCode: string, rules: Rules) {
    rules.certificateTypeCode != "" && requirementCode != "" && rules.certificateTypeCode != requirementCode
  }

  function ValidateFields(mismatch: bool, regular: seq<Field>, warning: Field, selection: Selection): Validation {
    var ids := RegularIds(regular, selection);
    var required := Required(EnabledValues(warning), ids);
    var warnings := WarningIds(warning, selection, required);
    Validation(
      (if mismatch then [RulesMismatch] else [])
      + RegularBlockers(regular, selection)
      + ConflictBlockers(ids, RegularById(regular), ids)
      + WarningBlockers(UniqueStrings(Chosen(selection, warning.code)), warning)
      + (if warnings == [] then [SelectionRequired(warning.code)] else []),
      selection[warning.code := warnings],
      required)
  }

  function Validate(requirementCode: string, rules: Rules, selection: Selection): Validation {
    var fields := ActiveFields(rules);
    if fields == [] then Validation([RulesRequired], map[], [])
    else ValidateFields(Mismatch(requirementCode, rules), Regular(fields), Warning(fields), selection)
  }

  /** The loop over the regular fields. */
  method CheckRegularFields(regular: seq<Field>, selection: Selection)
    returns (blockers: seq<Blocker>, ids: seq<string>, byId: map<string, Value>)
    ensures blockers == RegularBlockers(regular, selection)
    ensures ids == RegularIds(regular, selection) && byId == RegularById(regular)
  {
    hide EnabledValues, ById, UniqueStrings, Chosen, AddAll, Filter;
    blockers, ids, byId := [], [], map[];
    for i := 0 to |regular|
      invariant blockers == RegularBlockers(regular[..i], selection)
      invariant ids == RegularIds(regular[..i], selection)
      invariant byId == RegularById(regular[..i])
    {
      assert regular[..i + 1][..i] == regular[..i];
      var f := regular[i];
      byId := byId + ById(EnabledValues(f));
      var chosen := UniqueStrings(Chosen(selection, f.code));
      var invalid := Filter((id: string) => id !in EnabledIds(f), chosen);
      ghost var before := blockers;
      if invalid != [] {
        blockers := blockers + [ValueInvalid(f.code, invalid)];
      }
      if f.single && |chosen| > 1 {
        blockers := blockers + [SingleValueOnly(f.code)];
      }
      assert blockers == before + RegularBlockersOf(f, selection);
      ids := AddAll(ids, chosen);
    }
    assert regular[..|regular|] == regular;
  }

  /** The loop over the selected regular ids. */
  method CheckConflicts(ids: seq<string>, byId: map<string, Value>) returns (blockers: seq<Blocker>)
    ensures blockers == ConflictBlockers(ids, byId, ids)
  {
    blockers := [];
    for i := 0 to |ids|
      invariant blockers == ConflictBlockers(ids[..i], byId, ids)
    {
      assert ids[..i + 1][..i] == ids[..i];
      var conflicts := Conflicts(ids[i], byId, ids);
      if conflicts != [] {
        blockers := blockers + [ValuesConflict(ids[i], conflicts)];
      }
    }
    assert ids[..|ids|] == ids;
  }

  /** The loop over the selected warnings. */
  method CheckWarnings(chosen: seq<string>, warning: Field) returns (blockers: seq<Blocker>)
    ensures blockers == WarningBlockers(chosen, warning)
  {
    blockers := [];
    for i := 0 to |chosen|
      invariant blockers == WarningBlockers(chosen[..i], warning)
    {
      assert chosen[..i + 1][..i] == chosen[..i];
      if chosen[i] !in EnabledIds(warning) {
        blockers := blockers + [ValueInvalid(warning.code, [chosen[i]])];
      }
    }
    assert chosen[..|chosen|] == chosen;
  }

  /** `validateWarningAssignment` */
  method ValidateWarningAssignment(requirementCode: string, rules: Rules, selection: Selection) returns (v: Validation)
    ensures v == Validate(requirementCode, rules, selection)
  {
    hide ActiveFields, UniqueStrings, Chosen, EnabledValues, Required, WarningIds, RegularIds, RegularById;
    hide RegularBlockers, ConflictBlockers, WarningBlockers;
    var fields := ActiveFields(rules);
    if fields == [] {
      return Validation([RulesRequired], map[], []);
    }
    var blockers := if Mismatch(requirementCode, rules) then [RulesMismatch] else [];
    var warning := Warning(fields);
    var regularBlockers, ids, byId := CheckRegularFields(Regular(fields), selection);
    var conflictBlockers := CheckConflicts(ids, byId);
    var warningBlockers := CheckWarnings(UniqueStrings(Chosen(selection, warning.code)), warning);
    blockers := blockers + regularBlockers + conflictBlockers + warningBlockers;
    var required := Required(EnabledValues(warning), ids);
    var warnings := WarningIds(warning, selection, required);
    if warnings == [] {
      blockers := blockers + [SelectionRequired(warning.code)];
    }
    return Validation(blockers, selection[warning.code := warnings], required);
  }

  // ---------------------------------------------------------------- compilation

  /** The ids selected in these fields, as the builder collects them. */
  function AllIds(fields: seq<Field>, selection: Selection): seq<string> {
    if fields == [] then []
    else AddAll(AllIds(fields[..|fields| - 1], selection), Unique(Chosen(selection, fields[|fields| - 1].code)))
  }

  /** The distinct enabled ids of a field, each with its last value. */
  function ValueMap(values: seq<Value>): seq<(string, Value)> {
    if values == [] then []
    else Put(ValueMap(values[..|values| - 1]), values[|values| - 1].id, values[|values| - 1])
  }

  /** Pushes every mandatory warning that is not there yet. */
  function PushRequired(entries: seq<(string, Value)>, ids: seq<string>, have: seq<string>): seq<string> {
    if entries == [] then have
    else
      var (id, v) := entries[|entries| - 1];
      var r := PushRequired(entries[..|entries| - 1], ids, have);
      if MappedFrom(v, ids) && id !in r then r + [id] else r
  }

  predicate KnownOnly(f: Field, selection: Selection) {
    forall id :: id in Chosen(selection, f.code) ==> id in EnabledIds(f)
  }

  /** The request's non-blank SKC names, trimmed. */
  function SkcNames(skcNames: seq<string>): seq<string> {
    UniqueStrings(seq(|skcNames|, i requires 0 <= i < |skcNames| => Trim(skcNames[i])))
  }

  /** The first field with an unknown id, if any. */
  function FirstUnknown(fields: seq<Field>, selection: Selection): (i: nat)
    ensures i <= |fields|
    ensures i < |fields| ==> !KnownOnly(fields[i], selection)
    ensures forall j :: 0 <= j < i ==> KnownOnly(fields[j], selection)
  {
    if fields == [] || !KnownOnly(fields[0], selection) then 0 else 1 + FirstUnknown(fields[1..], selection)
  }

  /** The values sent for a field: the warning field has the pushed warnings too. */
  function Sent(f: Field, regular: seq<Field>, warning: Field, selection: Selection): seq<string> {
    var chosen := Unique(Chosen(selection, f.code));
    if f.code == warning.code
    then PushRequired(ValueMap(EnabledValues(warning)), AllIds(regular, selection), chosen)
    else chosen
  }

  function SentFields(of: seq<Field>, regular: seq<Field>, warning: Field, selection: Selection): seq<(string, seq<string>)> {
    seq(|of|, i requires 0 <= i < |of| => (Trim(of[i].code), Sent(of[i], regular, warning, selection)))
  }

  predicate FieldSendable(f: Field, regular: seq<Field>, warning: Field, selection: Selection) {
    HasText(f.code) && "" !in Sent(f, regular, warning, selection)
  }

  /** The first field that cannot be sent, if any. */
  function FirstUnsendable(of: seq<Field>, regular: seq<Field>, warning: Field, selection: Selection): (r: nat)
    ensures r <= |of| && (r < |of| ==> !FieldSendable(of[r], regular, warning, selection))
    ensures forall j :: 0 <= j < r ==> FieldSendable(of[j], regular, warning, selection)
  {
    if of == [] || !FieldSendable(of[0], regular, warning, selection) then 0
    else 1 + FirstUnsendable(of[1..], regular, warning, selection)
  }

  function BuildFields(certificateTypeCode: string, skcNames: seq<string>, regular: seq<Field>, warning: Field,
                       selection: Selection): Built
  {
    var fields := regular + [warning];
    var unknown := FirstUnknown(fields, selection);
    if unknown < |fields| then Err(UnknownValue(fields[unknown].code))
    else if !HasText(certificateTypeCode) then Err(CertificateTypeCodeRequired)
    else if SkcNames(skcNames) == [] then Err(SkcNamesRequired)
    else
      var blank := FirstUnsendable(fields, regular, warning, selection);
      if blank < |fields| then
        Err(if HasText(fields[blank].code) then FieldValueIdRequired(blank) else FieldCodeRequired(blank))
      else Ok(Body(Trim(certificateTypeCode), SkcNames(skcNames), SentFields(fields, regular, warning, selection)))
  }

  /** `buildWarningUpdateBody`; official ids keep their text, and the empty one is refused. */
  function Build(certificateTypeCode: string, skcNames: seq<string>, rules: Rules, selection: Selection): Built {
    var fields := ActiveFields(rules);
    if fields == [] then Err(NoRules)
    else BuildFields(certificateTypeCode, skcNames, Regular(fields), Warning(fields), selection)
  }

  /** The loop that checks and collects the selections. */
  method CollectSelections(fields: seq<Field>, selection: Selection) returns (unknown: nat, ids: seq<string>)
    requires fields != []
    ensures unknown == FirstUnknown(fields, selection)
    ensures unknown == |fields| ==> ids == AllIds(Regular(fields), selection)
  {
    hide KnownOnly, Unique, Chosen, AddAll;
    var n := |fields| - 1;
    ids := [];
    for i := 0 to |fields|
      invariant forall j :: 0 <= j < i ==> KnownOnly(fields[j], selection)
      invariant ids == AllIds(fields[..if i <= n then i else n], selection)
    {
      if !KnownOnly(fields[i], selection) {
        return i, ids;
      }
      if i < n {
        assert fields[..i + 1][..i] == fields[..i];
        ids := AddAll(ids, Unique(Chosen(selection, fields[i].code)));
      }
    }
    return |fields|, ids;
  }

  /** The loop that adds the mandatory warnings. */
  method CloseWarnings(entries: seq<(string, Value)>, ids: seq<string>, chosen: seq<string>) returns (warnings: seq<string>)
    ensures warnings == PushRequired(entries, ids, chosen)
  {
    warnings := chosen;
    for i := 0 to |entries|
      invariant warnings == PushRequired(entries[..i], ids, chosen)
    {
      assert entries[..i + 1][..i] == entries[..i];
      var (id, v) := entries[i];
      if MappedFrom(v, ids) && id !in warnings {
        warnings := warnings + [id];
      }
    }
    assert entries[..|entries|] == entries;
  }

  /** The loop that lists the values sent, up to the first field that cannot be sent. */
  method ListFields(fields: seq<Field>, selection: Selection, warnings: seq<string>)
    returns (blank: nat, fieldList: seq<(string, seq<string>)>)
    requires fields != [] && warnings == Sent(Warning(fields), Regular(fields), Warning(fields), selection)
    ensures blank == FirstUnsendable(fields, Regular(fields), Warning(fields), selection)
    ensures blank == |fields| ==> fieldList == SentFields(fields, Regular(fields), Warning(fields), selection)
  {
    hide Unique, Chosen, PushRequired, ValueMap, EnabledValues, AllIds, HasText, Trim, Regular, Warning;
    var warning := Warning(fields);
    fieldList := [];
    for i := 0 to |fields|
      invariant forall j :: 0 <= j < i ==> FieldSendable(fields[j], Regular(fields), warning, selection)
      invariant fieldList == SentFields(fields[..i], Regular(fields), warning, selection)
    {
      var sent := if fields[i].code == warning.code then warnings else Unique(Chosen(selection, fields[i].code));
      if !HasText(fields[i].code) || "" in sent {
        return i, fieldList;
      }
      fieldList := fieldList + [(Trim(fields[i].code), sent)];
    }
    assert fields[..|fields|] == fields;
    return |fields|, fieldList;
  }

  /** `buildWarningUpdateBody` */
  method BuildWarningUpdateBody(certificateTypeCode: string, skcNames: seq<string>, rules: Rules, selection: Selection)
    returns (b: Built)
    ensures b == Build(certificateTypeCode, skcNames, rules, selection)
  {
    var fields := ActiveFields(rules);
    if fields == [] {
      return Err(NoRules);
    }
    var warning := Warning(fields);
    assert fields == Regular(fields) + [warning];
    hide ActiveFields, Unique, Chosen, PushRequired, ValueMap, EnabledValues, AllIds, HasText, Trim, SkcNames, Regular, Warning;
    var unknown, ids := CollectSelections(fields, selection);
    if unknown < |fields| {
      return Err(UnknownValue(fields[unknown].code));
    }
    var warnings := CloseWarnings(ValueMap(EnabledValues(warning)), ids, Unique(Chosen(selection, warning.code)));
    if !HasText(certificateTypeCode) {
      return Err(CertificateTypeCodeRequired);
    }
    if SkcNames(skcNames) == [] {
      return Err(SkcNamesRequired);
    }
    var blank, fieldList := ListFields(fields, selection, warnings);
    if blank < |fields| {
      return Err(if HasText(fields[blank].code) then FieldValueIdRequired(blank) else FieldCodeRequired(blank));
    }
    return Ok(Body(Trim(certificateTypeCode), SkcNames(skcNames), fieldList));
  }
}
