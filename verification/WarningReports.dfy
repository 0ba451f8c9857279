/** What a warning validation reports, blocker by blocker, and what the builder makes of any selection. */
module WarningReports {
  import opened JsStrings
  import opened OrderedMap
  import opened WarningRules
  import opened WarningAgreement
  import opened WarningValidity

  // ---------------------------------------------------------------- where blockers come from

  lemma {:induction false} RegularBlockersMember(fields: seq<Field>, selection: Selection, b: Blocker)
    ensures b in RegularBlockers(fields, selection) <==>
            exists i :: 0 <= i < |fields| && b in RegularBlockersOf(fields[i], selection)
  {
    hide RegularBlockersOf;
    if fields != [] {
      var n := |fields| - 1;
      RegularBlockersMember(fields[..n], selection, b);
      assert forall i :: 0 <= i < n ==> fields[..n][i] == fields[i];
    }
  }

  lemma {:induction false} ConflictBlockersMember(of: seq<string>, byId: map<string, Value>, ids: seq<string>, b: Blocker)
    ensures b in ConflictBlockers(of, byId, ids) <==>
      b.ValuesConflict? && b.id in of && b.conflicts == Conflicts(b.id, byId, ids) != []
  {
    hide Conflicts;
    if of != [] {
      var n := |of| - 1;
      ConflictBlockersMember(of[..n], byId, ids, b);
      assert of == of[..n] + [of[n]];
    }
  }

  lemma {:induction false} WarningBlockersMember(ids: seq<string>, f: Field, b: Blocker)
    ensures b in WarningBlockers(ids, f) <==>
      b.ValueInvalid? && b.code == f.code && |b.ids| == 1 && b.ids[0] in ids && b.ids[0] !in EnabledIds(f)
  {
    hide EnabledIds;
    if b.ValueInvalid? && |b.ids| == 1 { assert b.ids == [b.ids[0]]; }
    if ids != [] {
      var n := |ids| - 1;
      WarningBlockersMember(ids[..n], f, b);
      assert ids == ids[..n] + [ids[n]];
    }
  }

  ghost predicate FromFields(regular: seq<Field>, warning: Field, selection: Selection, b: Blocker) {
    var ids := RegularIds(regular, selection);
    || b in RegularBlockers(regular, selection) || b in ConflictBlockers(ids, RegularById(regular), ids)
    || b in WarningBlockers(UniqueStrings(Chosen(selection, warning.code)), warning)
  }

  lemma BlockerMember(requirementCode: string, rules: Rules, selection: Selection, b: Blocker)
    requires ActiveFields(rules) != []
    ensures var fields := ActiveFields(rules); var regular, warning := Regular(fields), Warning(fields);
      b in Validate(requirementCode, rules, selection).blockers <==>
      || (b == RulesMismatch && Mismatch(requirementCode, rules)) || FromFields(regular, warning, selection, b)
      || (b == SelectionRequired(warning.code)
          && WarningIds(warning, selection, Required(EnabledValues(warning), RegularIds(regular, selection))) == [])
  {
    hide ActiveFields, RegularIds, RegularById, RegularBlockers, ConflictBlockers, WarningBlockers;
    hide UniqueStrings, Chosen, EnabledValues, Required, WarningIds, Mismatch;
  }

  // ---------------------------------------------------------------- which blockers

  /** Without active fields the rules are asked for, and nothing else; different type codes are reported. */
  lemma RulesReported(requirementCode: string, rules: Rules, selection: Selection)
    ensures var blockers := Validate(requirementCode, rules, selection).blockers;
      && (RulesRequired in blockers <==> ActiveFields(rules) == [])
      && (ActiveFields(rules) == [] ==> blockers == [RulesRequired])
      && (RulesMismatch in blockers <==>
            && ActiveFields(rules) != [] && rules.certificateTypeCode != "" && requirementCode != ""
            && rules.certificateTypeCode != requirementCode)
  {
    var fields := ActiveFields(rules);
    if fields != [] {
      forall b | b in [RulesRequired, RulesMismatch] ensures !FromFields(Regular(fields), Warning(fields), selection, b) {
        NotFromFields(Regular(fields), Warning(fields), selection, b);
      }
      assert RulesRequired in [RulesRequired, RulesMismatch] && RulesMismatch in [RulesRequired, RulesMismatch];
      BlockerMember(requirementCode, rules, selection, RulesRequired);
      BlockerMember(requirementCode, rules, selection, RulesMismatch);
      hide Validate, FromFields, ActiveFields, WarningIds, Required, RegularIds;
    }
  }

  lemma NotFromFields(regular: seq<Field>, warning: Field, selection: Selection, b: Blocker)
    requires b.RulesRequired? || b.RulesMismatch? || b.SelectionRequired?
    ensures !FromFields(regular, warning, selection, b)
  {
    var ids := RegularIds(regular, selection);
    RegularBlockersMember(regular, selection, b);
    ConflictBlockersMember(ids, RegularById(regular), ids, b);
    WarningBlockersMember(UniqueStrings(Chosen(selection, warning.code)), warning, b);
    hide RegularIds, RegularById, RegularBlockers, ConflictBlockers, WarningBlockers, UniqueStrings, Chosen;
  }

  /** A single-valued field is reported exactly when two different ids are selected in it. */
  lemma SingleValueReported(requirementCode: string, rules: Rules, selection: Selection, code: string)
    requires ActiveFields(rules) != []
    ensures var fields := ActiveFields(rules);
      SingleValueOnly(code) in Validate(requirementCode, rules, selection).blockers <==>
      exists i :: 0 <= i < |fields| - 1 && fields[i].code == code && fields[i].single && TwoSelected(selection, fields[i])
  {
    var fields := ActiveFields(rules);
    var regular, warning := Regular(fields), Warning(fields);
    BlockerMember(requirementCode, rules, selection, SingleValueOnly(code));
    SingleSource(regular, warning, selection, code);
    hide ActiveFields, Validate, FromFields, EnabledValues, Required, WarningIds, Mismatch, Selects, RegularIds;
  }

  ghost predicate TwoSelected(selection: Selection, f: Field) {
    exists x, y :: Selects(selection, f, x) && Selects(selection, f, y) && x != y
  }

  lemma SingleSource(regular: seq<Field>, warning: Field, selection: Selection, code: string)
    ensures FromFields(regular, warning, selection, SingleValueOnly(code)) <==>
            exists i :: 0 <= i < |regular| && regular[i].code == code && regular[i].single && TwoSelected(selection, regular[i])
  {
    var b, ids := SingleValueOnly(code), RegularIds(regular, selection);
    RegularBlockersMember(regular, selection, b);
    ConflictBlockersMember(ids, RegularById(regular), ids, b);
    WarningBlockersMember(UniqueStrings(Chosen(selection, warning.code)), warning, b);
    hide RegularIds, RegularById, RegularBlockers, ConflictBlockers, WarningBlockers, RegularBlockersOf, TwoSelected;
    forall i | 0 <= i < |regular|
      ensures b in RegularBlockersOf(regular[i], selection) <==>
              regular[i].code == code && regular[i].single && TwoSelected(selection, regular[i])
    {
      SingleOf(regular[i], selection, code);
    }
  }

  lemma SingleOf(f: Field, selection: Selection, code: string)
    ensures SingleValueOnly(code) in RegularBlockersOf(f, selection) <==>
            f.code == code && f.single && TwoSelected(selection, f)
  {
    SingleIff(f, selection);
    hide Invalid, UniqueStrings, Selects, Chosen;
  }

  /** The ids reported as invalid for a field code are the selected ones that a field with the code does
      not offer. */
  lemma InvalidReported(requirementCode: string, rules: Rules, selection: Selection, code: string, id: string)
    requires ActiveFields(rules) != []
    ensures var fields := ActiveFields(rules);
      (exists ids :: ValueInvalid(code, ids) in Validate(requirementCode, rules, selection).blockers && id in ids) <==>
      exists i :: 0 <= i < |fields| && fields[i].code == code && Selects(selection, fields[i], id) && !Offers(fields[i], id)
  {
    var fields := ActiveFields(rules);
    var regular, warning := Regular(fields), Warning(fields);
    var blockers := Validate(requirementCode, rules, selection).blockers;
    hide ActiveFields, RegularIds, RegularById, RegularBlockers, ConflictBlockers, WarningBlockers, Validate;
    hide UniqueStrings, Chosen, EnabledValues, Required, WarningIds, Mismatch, Selects, Offers, FromFields, RegularBlockersOf;
    forall ids: seq<string> ensures ValueInvalid(code, ids) in blockers <==> Reports(regular, warning, selection, code, ids) {
      BlockerMember(requirementCode, rules, selection, ValueInvalid(code, ids));
      InvalidSource(regular, warning, selection, code, ids);
    }
    ReportedIff(regular, warning, selection, code, id);
    hide Reports;
    assert fields == regular + [warning];
    if ids :| ValueInvalid(code, ids) in blockers && id in ids {
      assert Reports(regular, warning, selection, code, ids);
    }
  }

  lemma ReportedIff(regular: seq<Field>, warning: Field, selection: Selection, code: string, id: string)
    ensures var fields := regular + [warning];
      (exists ids :: Reports(regular, warning, selection, code, ids) && id in ids) <==>
      exists i :: 0 <= i < |fields| && fields[i].code == code && Selects(selection, fields[i], id) && !Offers(fields[i], id)
  {
    var fields := regular + [warning];
    hide Invalid, Selects, Offers;
    forall i | 0 <= i < |regular|
      ensures fields[i] == regular[i]
      ensures id in Invalid(regular[i], selection) <==> Selects(selection, regular[i], id) && !Offers(regular[i], id)
    {
      InvalidMember(regular[i], selection, id);
    }
    if i :| 0 <= i < |fields| && fields[i].code == code && Selects(selection, fields[i], id) && !Offers(fields[i], id) {
      var ids := if i < |regular| then Invalid(regular[i], selection) else [id];
      assert Reports(regular, warning, selection, code, ids) && id in ids;
    }
    if ids :| Reports(regular, warning, selection, code, ids) && id in ids {
      assert fields[|regular|] == warning;
    }
  }

  /** The ids are all the invalid ones of a regular field, or one of the warning field. */
  ghost predicate Reports(regular: seq<Field>, warning: Field, selection: Selection, code: string, ids: seq<string>) {
    || (exists i :: 0 <= i < |regular| && regular[i].code == code && ids == Invalid(regular[i], selection) != [])
    || (warning.code == code && |ids| == 1 && Selects(selection, warning, ids[0]) && !Offers(warning, ids[0]))
  }

  lemma InvalidSource(regular: seq<Field>, warning: Field, selection: Selection, code: string, ids: seq<string>)
    ensures FromFields(regular, warning, selection, ValueInvalid(code, ids)) <==> Reports(regular, warning, selection, code, ids)
  {
    var b := ValueInvalid(code, ids);
    var all := RegularIds(regular, selection);
    RegularBlockersMember(regular, selection, b);
    ConflictBlockersMember(all, RegularById(regular), all, b);
    WarningBlockersMember(UniqueStrings(Chosen(selection, warning.code)), warning, b);
    if |ids| == 1 {
      SelectsIff(selection, warning, ids[0]);
      OffersIff(warning, ids[0]);
    }
    hide RegularIds, RegularById, RegularBlockers, ConflictBlockers, WarningBlockers;
    hide UniqueStrings, Chosen, EnabledIds, Selects, Offers, Invalid;
  }

  lemma InvalidMember(f: Field, selection: Selection, id: string)
    ensures id in Invalid(f, selection) <==> Selects(selection, f, id) && !Offers(f, id)
  {
    hide EnabledIds, UniqueStrings, Offers, Selects;
    FilterMember((x: string) => x !in EnabledIds(f), UniqueStrings(Chosen(selection, f.code)), id);
    SelectsIff(selection, f, id);
    OffersIff(f, id);
  }

  /** The conflicts reported for an id are the selected ids that its value excludes. */
  lemma ConflictReported(requirementCode: string, rules: Rules, selection: Selection, id: string, other: string)
    requires ActiveFields(rules) != []
    ensures var fields := ActiveFields(rules); var regular := fields[..|fields| - 1];
      (exists cs :: ValuesConflict(id, cs) in Validate(requirementCode, rules, selection).blockers && other in cs) <==>
      SelectsAmong(regular, selection, id) && SelectsAmong(regular, selection, other) && Excludes(regular, id, other)
  {
    var fields := ActiveFields(rules);
    var regular, warning := Regular(fields), Warning(fields);
    var blockers := Validate(requirementCode, rules, selection).blockers;
    var ids, byId := RegularIds(regular, selection), RegularById(regular);
    hide ActiveFields, RegularIds, RegularById, RegularBlockers, ConflictBlockers, WarningBlockers, Validate;
    hide UniqueStrings, Chosen, EnabledValues, Required, WarningIds, Mismatch, SelectsAmong, Excludes, Conflicts;
    forall cs: seq<string> ensures ValuesConflict(id, cs) in blockers <==> id in ids && cs == Conflicts(id, byId, ids) != [] {
      var b := ValuesConflict(id, cs);
      BlockerMember(requirementCode, rules, selection, b);
      RegularBlockersMember(regular, selection, b);
      ConflictBlockersMember(ids, byId, ids, b);
      WarningBlockersMember(UniqueStrings(Chosen(selection, warning.code)), warning, b);
    }
    SelectsAmongIff(regular, selection, id);
    SelectsAmongIff(regular, selection, other);
    ExcludesIff(regular, id, other);
    ConflictMember(regular, selection, id, other);
  }

  lemma ConflictMember(regular: seq<Field>, selection: Selection, id: string, c: string)
    ensures var ids, byId := RegularIds(regular, selection), RegularById(regular);
      c in Conflicts(id, byId, ids) <==> id in byId && c in byId[id].exclusions && c in ids
  {
    var ids, byId := RegularIds(regular, selection), RegularById(regular);
    RegularIdsMember(regular, selection, "");
    if id in byId {
      FilterMember((x: string) => x in ids, UniqueStrings(byId[id].exclusions), c);
      UniqueStringsMember(byId[id].exclusions, c);
    }
  }

  /** A selection is asked for exactly when no offered warning is selected and none is mapped. */
  lemma SelectionReported(requirementCode: string, rules: Rules, selection: Selection, code: string)
    requires ActiveFields(rules) != []
    ensures var fields := ActiveFields(rules); var n := |fields| - 1;
      SelectionRequired(code) in Validate(requirementCode, rules, selection).blockers <==>
      && code == fields[n].code && (forall id :: Selects(selection, fields[n], id) ==> !Offers(fields[n], id))
      && forall v :: v in fields[n].values ==> !Mapped(fields[..n], selection, v)
  {
    var fields := ActiveFields(rules);
    var regular, warning := Regular(fields), Warning(fields);
    hide ActiveFields, RegularIds, Validate, EnabledValues, Required, WarningIds, Mismatch, FromFields, Selects, Offers, Mapped;
    BlockerMember(requirementCode, rules, selection, SelectionRequired(code));
    NotFromFields(regular, warning, selection, SelectionRequired(code));
    NoWarningIff(regular, warning, selection);
  }

  lemma NoWarningIff(regular: seq<Field>, warning: Field, selection: Selection)
    ensures WarningIds(warning, selection, Required(EnabledValues(warning), RegularIds(regular, selection))) == [] <==>
      && (forall id :: Selects(selection, warning, id) ==> !Offers(warning, id))
      && forall v :: v in warning.values ==> !Mapped(regular, selection, v)
  {
    var warnings := WarningIds(warning, selection, Required(EnabledValues(warning), RegularIds(regular, selection)));
    hide RegularIds, EnabledValues, Required, WarningIds, Selects, Offers, Mapped;
    EmptyIff(warnings);
    forall id ensures id in warnings <==>
      || (Selects(selection, warning, id) && Offers(warning, id))
      || exists v :: v in warning.values && Mapped(regular, selection, v) && v.id == id
    {
      SelectedWarnings(regular, warning, selection, id);
    }
    forall v | v in warning.values && Mapped(regular, selection, v) ensures v.id in warnings {}
  }
}
