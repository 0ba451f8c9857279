/** Which warning assignments are valid, and what validation selects, stated on the rules themselves. */
module WarningValidity {
  import opened JsStrings
  import opened WarningRules
  import opened WarningAgreement

  // ---------------------------------------------------------------- the active fields

  lemma {:induction false} FilterTwice(fields: seq<Field>, k: real)
    ensures WithSort(Filter((f: Field) => f.enabled, fields), k) == Filter((f: Field) => f.enabled && f.sort == k, fields)
  {
    var p := (f: Field) => f.enabled;
    if fields != [] {
      var n := |fields| - 1;
      FilterTwice(fields[..n], k);
      if fields[n].enabled { WithSortLast(Filter(p, fields[..n]), fields[n], k); }
    }
  }

  /** The active fields are the enabled ones by rank, those of one rank in the order of the rules. */
  lemma ActiveFieldsExact(rules: Rules, k: real)
    ensures SortedFields(ActiveFields(rules))
    ensures WithSort(ActiveFields(rules), k) == Filter((f: Field) => f.enabled && f.sort == k, rules.fields)
    ensures forall f :: f in ActiveFields(rules) <==> f in rules.fields && f.enabled
  {
    SortFieldsSorts(Filter((f: Field) => f.enabled, rules.fields), k);
    FilterTwice(rules.fields, k);
    forall f ensures f in ActiveFields(rules) <==> f in rules.fields && f.enabled {
      SortFieldsSorts(Filter((g: Field) => g.enabled, rules.fields), f.sort);
      FilterTwice(rules.fields, f.sort);
      FilterMember((g: Field) => g.sort == f.sort, ActiveFields(rules), f);
      FilterMember((g: Field) => g.enabled && g.sort == f.sort, rules.fields, f);
    }
  }

  // ---------------------------------------------------------------- what an assignment selects

  /** An id that counts: the empty one does not. */
  ghost predicate Selects(selection: Selection, f: Field, id: string) {
    id != "" && f.code in selection && id in selection[f.code]
  }

  ghost predicate SelectsAmong(fields: seq<Field>, selection: Selection, id: string) {
    exists i :: 0 <= i < |fields| && Selects(selection, fields[i], id)
  }

  ghost predicate Offers(f: Field, id: string) { exists v :: v in f.values && v.enabled && v.id == id }

  /** The value that counts for an id: the last enabled one with that id, in the last field that has one. */
  ghost predicate Consulted(fields: seq<Field>, id: string, p: nat, x: nat) {
    && Carries(fields, id, p, x)
    && forall q: nat, y: nat :: Carries(fields, id, q, y) ==> q < p || (q == p && y <= x)
  }

  ghost predicate Carries(fields: seq<Field>, id: string, p: nat, x: nat) {
    p < |fields| && x < |fields[p].values| && fields[p].values[x].enabled && fields[p].values[x].id == id
  }

  /** The value that counts for an id excludes another id. */
  ghost predicate Excludes(fields: seq<Field>, id: string, other: string) {
    exists p: nat, x: nat :: Consulted(fields, id, p, x) && other in fields[p].values[x].exclusions
  }

  /** Some selected id excludes a selected id. */
  ghost predicate Clash(fields: seq<Field>, selection: Selection) {
    exists id, other ::
      SelectsAmong(fields, selection, id) && SelectsAmong(fields, selection, other) && Excludes(fields, id, other)
  }

  /** An enabled warning that a selected id is mapped to. */
  ghost predicate Mapped(regular: seq<Field>, selection: Selection, v: Value) {
    && v.enabled
    && exists path, id :: path in v.mappingPaths && id in path && SelectsAmong(regular, selection, id)
  }

  /** What a field of the rules demands of the assignment. */
  ghost predicate FieldRespected(f: Field, selection: Selection) {
    && (forall id :: Selects(selection, f, id) ==> Offers(f, id))
    && (f.single ==> forall a, b :: Selects(selection, f, a) && Selects(selection, f, b) ==> a == b)
  }

  ghost predicate ValidAssignment(requirementCode: string, rules: Rules, selection: Selection) {
    var fields := ActiveFields(rules);
    && fields != []
    && (rules.certificateTypeCode == "" || requirementCode == "" || rules.certificateTypeCode == requirementCode)
    && FieldsRespected(fields[..|fields| - 1], fields[|fields| - 1], selection)
  }

  /** What the fields demand: the last one carries the warnings, of which there must be some. */
  ghost predicate FieldsRespected(regular: seq<Field>, warning: Field, selection: Selection) {
    && (forall i :: 0 <= i < |regular| ==> FieldRespected(regular[i], selection))
    && !Clash(regular, selection)
    && (forall id :: Selects(selection, warning, id) ==> Offers(warning, id))
    && ((exists id :: Selects(selection, warning, id))
        || exists v :: v in warning.values && Mapped(regular, selection, v))
  }

  // ---------------------------------------------------------------- selected ids

  lemma OffersIff(f: Field, id: string)
    ensures id in EnabledIds(f) <==> Offers(f, id)
  {
    IdsMember(EnabledValues(f), id);
    forall v ensures v in EnabledValues(f) <==> v in f.values && v.enabled {
      FilterMember((w: Value) => w.enabled, f.values, v);
    }
  }

  lemma SelectsIff(selection: Selection, f: Field, id: string)
    ensures Selects(selection, f, id) <==> id != "" && id in Chosen(selection, f.code)
    ensures Selects(selection, f, id) <==> id in UniqueStrings(Chosen(selection, f.code))
  {
    UniqueStringsMember(Chosen(selection, f.code), id);
  }

  lemma SelectsAmongIff(fields: seq<Field>, selection: Selection, id: string)
    ensures SelectsAmong(fields, selection, id) <==> id in RegularIds(fields, selection)
  {
    RegularIdsMember(fields, selection, id);
    forall i | 0 <= i < |fields| ensures Selects(selection, fields[i], id) <==> id != "" && id in Chosen(selection, fields[i].code) {
      SelectsIff(selection, fields[i], id);
    }
  }

  lemma EmptyIff(xs: seq<string>)
    ensures xs == [] <==> forall x :: x !in xs
  {
    if xs != [] { assert xs[0] in xs; }
  }

  /** A list without repetitions has at most one element exactly when its elements are all the same. */
  lemma AtMostOneIff(xs: seq<string>)
    requires NoDuplicates(xs)
    ensures |xs| <= 1 <==> forall a, b :: a in xs && b in xs ==> a == b
  {
    if |xs| > 1 { assert xs[0] in xs && xs[1] in xs && xs[0] != xs[1]; }
  }

  // ---------------------------------------------------------------- the blockers of regular fields

  lemma InvalidIff(f: Field, selection: Selection)
    ensures Invalid(f, selection) == [] <==> forall id :: Selects(selection, f, id) ==> Offers(f, id)
  {
    var chosen := UniqueStrings(Chosen(selection, f.code));
    EmptyIff(Invalid(f, selection));
    hide EnabledIds, UniqueStrings, Offers, Selects;
    forall id ensures id in Invalid(f, selection) <==> Selects(selection, f, id) && !Offers(f, id) {
      FilterMember((x: string) => x !in EnabledIds(f), chosen, id);
      SelectsIff(selection, f, id);
      OffersIff(f, id);
    }
  }

  lemma SingleIff(f: Field, selection: Selection)
    ensures |UniqueStrings(Chosen(selection, f.code))| <= 1 <==>
            forall a, b :: Selects(selection, f, a) && Selects(selection, f, b) ==> a == b
  {
    var chosen := UniqueStrings(Chosen(selection, f.code));
    AddAllNoDuplicates([], Filter((s: string) => s != "", Chosen(selection, f.code)));
    AtMostOneIff(chosen);
    hide UniqueStrings, Selects;
    forall id ensures id in chosen <==> Selects(selection, f, id) { SelectsIff(selection, f, id); }
  }

  lemma FieldRespectedIff(f: Field, selection: Selection)
    ensures RegularBlockersOf(f, selection) == [] <==> FieldRespected(f, selection)
  {
    hide Invalid, UniqueStrings, Selects, Offers, Chosen;
    InvalidIff(f, selection);
    SingleIff(f, selection);
  }

  lemma {:induction false} RegularBlockersIff(fields: seq<Field>, selection: Selection)
    ensures RegularBlockers(fields, selection) == [] <==>
            forall i :: 0 <= i < |fields| ==> FieldRespected(fields[i], selection)
  {
    hide RegularBlockersOf, FieldRespected;
    if fields != [] {
      var n := |fields| - 1;
      RegularBlockersIff(fields[..n], selection);
      FieldRespectedIff(fields[n], selection);
      assert forall i :: 0 <= i < n ==> fields[..n][i] == fields[i];
    }
  }

  // ---------------------------------------------------------------- the value of an id

  /** The last enabled value with the id among some values. */
  ghost predicate LastIn(values: seq<Value>, id: string, x: nat) {
    && x < |values| && values[x].enabled && values[x].id == id
    && forall y :: x < y < |values| ==> !(values[y].enabled && values[y].id == id)
  }

  lemma {:induction false} ByIdIsLast(values: seq<Value>, id: string)
    ensures var m := ById(Filter((v: Value) => v.enabled, values));
      && (id in m <==> exists x: nat :: LastIn(values, id, x))
      && forall x: nat :: LastIn(values, id, x) ==> id in m && m[id] == values[x]
  {
    var p := (v: Value) => v.enabled;
    if values != [] {
      var n := |values| - 1;
      ByIdIsLast(values[..n], id);
      var m := ById(Filter(p, values));
      if values[n].enabled {
        assert Filter(p, values)[..|Filter(p, values)| - 1] == Filter(p, values[..n]);
      }
      if values[n].enabled && values[n].id == id {
        assert LastIn(values, id, n);
      } else {
        assert id in m <==> id in ById(Filter(p, values[..n]));
        forall x: nat ensures LastIn(values, id, x) <==> LastIn(values[..n], id, x) { LastInPrefix(values, id, x); }
      }
    }
  }

  lemma LastInPrefix(values: seq<Value>, id: string, x: nat)
    requires values != [] && !(values[|values| - 1].enabled && values[|values| - 1].id == id)
    ensures LastIn(values, id, x) <==> LastIn(values[..|values| - 1], id, x)
  {
    var n := |values| - 1;
    if LastIn(values[..n], id, x) {
      forall y | x < y < |values| ensures !(values[y].enabled && values[y].id == id) {
        if y < n { assert values[..n][y] == values[y]; }
      }
    }
  }

  /** The map from ids to values holds exactly the consulted ones. */
  lemma {:induction false} RegularByIdIff(fields: seq<Field>, id: string)
    ensures var m := RegularById(fields);
      && (id in m <==> exists p: nat, x: nat :: Consulted(fields, id, p, x))
      && forall p: nat, x: nat :: Consulted(fields, id, p, x) ==> id in m && m[id] == fields[p].values[x]
  {
    if fields != [] {
      var n := |fields| - 1;
      var last := ById(EnabledValues(fields[n]));
      ByIdIsLast(fields[n].values, id);
      RegularByIdIff(fields[..n], id);
      hide ById, EnabledValues;
      if id in last {
        var x: nat :| LastIn(fields[n].values, id, x);
        forall q: nat, y: nat | Carries(fields, id, q, y) ensures q < n || (q == n && y <= x) {}
        assert Carries(fields, id, n, x);
        assert Consulted(fields, id, n, x);
        forall p: nat, z: nat | Consulted(fields, id, p, z) ensures p == n && z == x {}
      } else {
        hide RegularById;
        RegularByIdLast(fields, id);
        NoneInLast(fields, id);
        if id in RegularById(fields) {
          var p: nat, x: nat :| Consulted(fields[..n], id, p, x);
          assert Consulted(fields, id, p, x);
        }
        forall p: nat, x: nat | Consulted(fields, id, p, x)
          ensures id in RegularById(fields) && RegularById(fields)[id] == fields[p].values[x]
        {
          assert Consulted(fields[..n], id, p, x);
        }
      }
    }
  }

  lemma RegularByIdLast(fields: seq<Field>, id: string)
    requires fields != [] && id !in ById(EnabledValues(fields[|fields| - 1]))
    ensures id in RegularById(fields) <==> id in RegularById(fields[..|fields| - 1])
    ensures id in RegularById(fields) ==> RegularById(fields)[id] == RegularById(fields[..|fields| - 1])[id]
  {
  }

  lemma NoneInLast(fields: seq<Field>, id: string)
    requires fields != [] && id !in ById(EnabledValues(fields[|fields| - 1]))
    ensures forall p: nat, x: nat :: Consulted(fields, id, p, x) <==> Consulted(fields[..|fields| - 1], id, p, x)
  {
    var n := |fields| - 1;
    forall x: nat ensures !Carries(fields, id, n, x) {
      if Carries(fields, id, n, x) {
        CarriedHasLast(fields[n].values, id, x);
        ByIdIsLast(fields[n].values, id);
      }
    }
    forall q: nat, y: nat ensures Carries(fields, id, q, y) <==> Carries(fields[..n], id, q, y) {}
  }

  lemma {:induction false} CarriedHasLast(values: seq<Value>, id: string, x: nat)
    requires x < |values| && values[x].enabled && values[x].id == id
    ensures exists y: nat :: LastIn(values, id, y)
    decreases |values| - x
  {
    if y: nat :| x < y < |values| && values[y].enabled && values[y].id == id {
      CarriedHasLast(values, id, y);
    } else {
      assert LastIn(values, id, x);
    }
  }

  // ---------------------------------------------------------------- conflicts

  lemma {:induction false} ConflictBlockersIff(of: seq<string>, byId: map<string, Value>, ids: seq<string>)
    ensures ConflictBlockers(of, byId, ids) == [] <==> forall id :: id in of ==> Conflicts(id, byId, ids) == []
  {
    hide Conflicts;
    if of != [] {
      var n := |of| - 1;
      ConflictBlockersIff(of[..n], byId, ids);
      assert of == of[..n] + [of[n]];
    }
  }

  lemma ConflictsIff(id: string, byId: map<string, Value>, ids: seq<string>)
    requires "" !in ids
    ensures Conflicts(id, byId, ids) == [] <==> !(id in byId && exists c :: c in byId[id].exclusions && c in ids)
  {
    EmptyIff(Conflicts(id, byId, ids));
    if id in byId {
      forall c ensures c in Conflicts(id, byId, ids) <==> c in byId[id].exclusions && c in ids {
        FilterMember((x: string) => x in ids, UniqueStrings(byId[id].exclusions), c);
        UniqueStringsMember(byId[id].exclusions, c);
      }
    }
  }

  lemma ExcludesIff(fields: seq<Field>, id: string, other: string)
    ensures Excludes(fields, id, other) <==> id in RegularById(fields) && other in RegularById(fields)[id].exclusions
  {
    hide RegularById;
    RegularByIdIff(fields, id);
    if id in RegularById(fields) {
      var p: nat, x: nat :| Consulted(fields, id, p, x);
    }
  }

  lemma ClashIff(fields: seq<Field>, selection: Selection)
    ensures var ids := RegularIds(fields, selection);
      ConflictBlockers(ids, RegularById(fields), ids) == [] <==> !Clash(fields, selection)
  {
    var ids, byId := RegularIds(fields, selection), RegularById(fields);
    assert "" !in ids by { RegularIdsMember(fields, selection, ""); }
    hide RegularIds, RegularById, SelectsAmong, Excludes, Conflicts;
    forall id ensures SelectsAmong(fields, selection, id) <==> id in ids { SelectsAmongIff(fields, selection, id); }
    ConflictBlockersIff(ids, byId, ids);
    forall id ensures Conflicts(id, byId, ids) == [] <==> !(id in byId && exists c :: c in byId[id].exclusions && c in ids) {
      ConflictsIff(id, byId, ids);
    }
    forall id, other
      ensures Excludes(fields, id, other) <==> id in byId && other in byId[id].exclusions
    {
      ExcludesIff(fields, id, other);
    }
  }

  // ---------------------------------------------------------------- warnings

  lemma {:induction false} WarningBlockersIff(ids: seq<string>, f: Field)
    ensures WarningBlockers(ids, f) == [] <==> forall id :: id in ids ==> id in EnabledIds(f)
  {
    if ids != [] {
      var n := |ids| - 1;
      WarningBlockersIff(ids[..n], f);
      assert ids == ids[..n] + [ids[n]];
    }
  }

  lemma MappedIff(regular: seq<Field>, selection: Selection, v: Value)
    ensures v.enabled && MappedFrom(v, RegularIds(regular, selection)) <==> Mapped(regular, selection, v)
  {
    var ids := RegularIds(regular, selection);
    hide RegularIds, SelectsAmong;
    forall id ensures SelectsAmong(regular, selection, id) <==> id in ids { SelectsAmongIff(regular, selection, id); }
    if MappedFrom(v, ids) {
      var p, i :| 0 <= p < |v.mappingPaths| && 0 <= i < |v.mappingPaths[p]| && v.mappingPaths[p][i] in ids;
      assert v.mappingPaths[p] in v.mappingPaths && v.mappingPaths[p][i] in v.mappingPaths[p];
    }
    if path, id :| path in v.mappingPaths && id in path && SelectsAmong(regular, selection, id) {
      var p :| 0 <= p < |v.mappingPaths| && v.mappingPaths[p] == path;
      var i :| 0 <= i < |path| && path[i] == id;
      assert v.mappingPaths[p][i] in ids;
    }
  }

  /** The ids that the mapping makes mandatory. */
  lemma RequiredIff(regular: seq<Field>, warning: Field, selection: Selection, id: string)
    ensures id in Required(EnabledValues(warning), RegularIds(regular, selection)) <==>
            exists v :: v in warning.values && Mapped(regular, selection, v) && v.id == id
  {
    var ids := RegularIds(regular, selection);
    RequiredMember(EnabledValues(warning), ids, id);
    hide RegularIds, Mapped, MappedFrom;
    forall v ensures v in EnabledValues(warning) && MappedFrom(v, ids) <==> v in warning.values && Mapped(regular, selection, v) {
      FilterMember((w: Value) => w.enabled, warning.values, v);
      MappedIff(regular, selection, v);
      assert Mapped(regular, selection, v) ==> v.enabled by { MappedEnabled(regular, selection, v); }
    }
  }

  lemma MappedEnabled(regular: seq<Field>, selection: Selection, v: Value)
    ensures Mapped(regular, selection, v) ==> v.enabled
  {
  }

  /** The warnings after validation: those selected that are offered, and those mapped. */
  lemma SelectedWarnings(regular: seq<Field>, warning: Field, selection: Selection, id: string)
    ensures id in WarningIds(warning, selection, Required(EnabledValues(warning), RegularIds(regular, selection))) <==>
      || (Selects(selection, warning, id) && Offers(warning, id))
      || exists v :: v in warning.values && Mapped(regular, selection, v) && v.id == id
  {
    hide RegularIds, Required, Mapped, Selects, Offers;
    WarningIdsMember(warning, selection, Required(EnabledValues(warning), RegularIds(regular, selection)), id);
    RequiredIff(regular, warning, selection, id);
    OffersIff(warning, id);
    SelectsIff(selection, warning, id);
  }

  // ---------------------------------------------------------------- validity

  lemma WarningsRespectedIff(warning: Field, selection: Selection)
    ensures WarningBlockers(UniqueStrings(Chosen(selection, warning.code)), warning) == [] <==>
            forall id :: Selects(selection, warning, id) ==> Offers(warning, id)
  {
    var chosen := UniqueStrings(Chosen(selection, warning.code));
    hide UniqueStrings, Selects, Offers, EnabledIds;
    WarningBlockersIff(chosen, warning);
    forall id ensures id in chosen <==> Selects(selection, warning, id) { SelectsIff(selection, warning, id); }
    forall id ensures id in EnabledIds(warning) <==> Offers(warning, id) { OffersIff(warning, id); }
  }

  lemma SomeWarningIff(regular: seq<Field>, warning: Field, selection: Selection)
    requires forall id :: Selects(selection, warning, id) ==> Offers(warning, id)
    ensures WarningIds(warning, selection, Required(EnabledValues(warning), RegularIds(regular, selection))) != [] <==>
      (exists id :: Selects(selection, warning, id)) || exists v :: v in warning.values && Mapped(regular, selection, v)
  {
    var warnings := WarningIds(warning, selection, Required(EnabledValues(warning), RegularIds(regular, selection)));
    hide WarningIds, Required, RegularIds, Mapped, Selects, Offers, EnabledValues;
    EmptyIff(warnings);
    forall id ensures id in warnings <==>
      || (Selects(selection, warning, id) && Offers(warning, id))
      || exists v :: v in warning.values && Mapped(regular, selection, v) && v.id == id
    {
      SelectedWarnings(regular, warning, selection, id);
    }
    if v :| v in warning.values && Mapped(regular, selection, v) { assert v.id in warnings; }
    if id :| Selects(selection, warning, id) { assert id in warnings; }
  }

  lemma ValidFieldsIff(mismatch: bool, regular: seq<Field>, warning: Field, selection: Selection)
    ensures ValidateFields(mismatch, regular, warning, selection).Valid() <==>
            !mismatch && FieldsRespected(regular, warning, selection)
  {
    hide RegularIds, RegularBlockers, ConflictBlockers, WarningBlockers, WarningIds, Required, RegularById;
    hide UniqueStrings, EnabledValues, FieldRespected, Clash, Selects, Offers, Mapped, Chosen;
    RegularBlockersIff(regular, selection);
    ClashIff(regular, selection);
    WarningsRespectedIff(warning, selection);
    if forall id :: Selects(selection, warning, id) ==> Offers(warning, id) {
      SomeWarningIff(regular, warning, selection);
    }
  }

  /** Exactly these assignments are valid. */
  lemma ValidIff(requirementCode: string, rules: Rules, selection: Selection)
    ensures Validate(requirementCode, rules, selection).Valid() <==> ValidAssignment(requirementCode, rules, selection)
  {
    hide ActiveFields, ValidateFields, FieldsRespected;
    var fields := ActiveFields(rules);
    if fields != [] { ValidFieldsIff(Mismatch(requirementCode, rules), Regular(fields), Warning(fields), selection); }
  }

  /** What validation selects, valid or not: the warnings offered and selected or mapped, in the last
      field; everything else as it was. The mapped ones are reported as required. */
  lemma SelectionExact(requirementCode: string, rules: Rules, selection: Selection, id: string)
    requires ActiveFields(rules) != []
    ensures var fields := ActiveFields(rules); var n := |fields| - 1;
            var v := Validate(requirementCode, rules, selection);
      && v.selected.Keys == selection.Keys + {fields[n].code}
      && (forall code :: code in selection && code != fields[n].code ==> v.selected[code] == selection[code])
      && (id in v.selected[fields[n].code] <==>
            || (Selects(selection, fields[n], id) && Offers(fields[n], id))
            || exists w :: w in fields[n].values && Mapped(fields[..n], selection, w) && w.id == id)
      && (id in v.required <==> exists w :: w in fields[n].values && Mapped(fields[..n], selection, w) && w.id == id)
  {
    var fields := ActiveFields(rules);
    hide RegularIds, RegularBlockers, ConflictBlockers, WarningBlockers, WarningIds, Required, RegularById;
    hide UniqueStrings, EnabledValues, Clash, Selects, Offers, Mapped, Chosen, ActiveFields;
    SelectedWarnings(Regular(fields), Warning(fields), selection, id);
    RequiredIff(Regular(fields), Warning(fields), selection, id);
  }
}
