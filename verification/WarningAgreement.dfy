/** What a valid warning assignment guarantees about the request compiled from it. */
module WarningAgreement {
  import opened JsStrings
  import opened WarningRules

  ghost predicate DistinctCodes(fields: seq<Field>) {
    forall i, j :: 0 <= i < j < |fields| ==> fields[i].code != fields[j].code
  }

  // ---------------------------------------------------------------- field order

  ghost predicate SortedFields(fields: seq<Field>) {
    forall i, j :: 0 <= i < j < |fields| ==> fields[i].sort <= fields[j].sort
  }

  function WithSort(fields: seq<Field>, k: real): seq<Field> {
    Filter((f: Field) => f.sort == k, fields)
  }

  lemma WithSortLast(fields: seq<Field>, f: Field, k: real)
    ensures WithSort(fields + [f], k) == WithSort(fields, k) + (if f.sort == k then [f] else [])
  {
    assert (fields + [f])[..|fields|] == fields;
  }

  lemma {:induction false} InsertFieldSorts(sorted: seq<Field>, f: Field, k: real)
    requires SortedFields(sorted)
    ensures SortedFields(InsertField(sorted, f)) && |InsertField(sorted, f)| == |sorted| + 1
    ensures forall i :: 0 <= i < |sorted| + 1 ==> InsertField(sorted, f)[i] == f || InsertField(sorted, f)[i] in sorted
    ensures WithSort(InsertField(sorted, f), k) == WithSort(sorted + [f], k)
  {
    hide WithSort;
    var n := |sorted| - 1;
    if sorted == [] || sorted[n].sort <= f.sort {
    } else {
      var rest := sorted[..n];
      InsertFieldSorts(rest, f, k);
      assert forall i :: 0 <= i <= n ==> InsertField(rest, f)[i].sort <= sorted[n].sort;
      assert rest + [sorted[n]] == sorted;
      WithSortLast(InsertField(rest, f), sorted[n], k);
      WithSortLast(rest, f, k);
      WithSortLast(rest, sorted[n], k);
      WithSortLast(sorted, f, k);
    }
  }

  /** The fields are sorted, and fields of equal rank keep their order: nothing is lost or doubled. */
  lemma {:induction false} SortFieldsSorts(fields: seq<Field>, k: real)
    ensures SortedFields(SortFields(fields)) && |SortFields(fields)| == |fields|
    ensures WithSort(SortFields(fields), k) == WithSort(fields, k)
  {
    if fields != [] {
      var n := |fields| - 1;
      var s := SortFields(fields[..n]);
      SortFieldsSorts(fields[..n], k);
      InsertFieldSorts(s, fields[n], k);
      assert (s + [fields[n]])[..n] == s;
    }
  }

  // ---------------------------------------------------------------- what validity means

  lemma {:induction false} RegularBlockersNone(fields: seq<Field>, selection: Selection, i: nat)
    requires RegularBlockers(fields, selection) == [] && i < |fields|
    ensures RegularBlockersOf(fields[i], selection) == []
  {
    hide RegularBlockersOf;
    var n := |fields| - 1;
    if i < n { RegularBlockersNone(fields[..n], selection, i); }
  }

  lemma {:induction false} ConflictBlockersNone(of: seq<string>, byId: map<string, Value>, ids: seq<string>, i: nat)
    requires ConflictBlockers(of, byId, ids) == [] && i < |of|
    ensures Conflicts(of[i], byId, ids) == []
  {
    hide Conflicts;
    var n := |of| - 1;
    if i < n { ConflictBlockersNone(of[..n], byId, ids, i); }
  }

  lemma NothingInvalid(f: Field, selection: Selection, id: string)
    requires Invalid(f, selection) == [] && id in Chosen(selection, f.code) && id != ""
    ensures id in EnabledIds(f)
  {
    UniqueStringsMember(Chosen(selection, f.code), id);
    FilterMember((x: string) => x !in EnabledIds(f), UniqueStrings(Chosen(selection, f.code)), id);
  }

  lemma IdsMember(values: seq<Value>, id: string)
    ensures id in Ids(values) <==> exists v :: v in values && v.id == id
  {
    if id in Ids(values) {
      var i :| 0 <= i < |values| && Ids(values)[i] == id;
      assert values[i] in values;
    }
    if v :| v in values && v.id == id {
      var i :| 0 <= i < |values| && values[i] == v;
      assert Ids(values)[i] == id;
    }
  }

  lemma RequiredMember(values: seq<Value>, ids: seq<string>, id: string)
    ensures id in Required(values, ids) <==> exists v :: v in values && v.id == id && MappedFrom(v, ids)
  {
    var p := (v: Value) => MappedFrom(v, ids);
    IdsMember(Filter(p, values), id);
    forall v ensures v in Filter(p, values) <==> v in values && p(v) { FilterMember(p, values, v); }
  }

  lemma WarningIdsMember(f: Field, selection: Selection, required: seq<string>, id: string)
    ensures id in WarningIds(f, selection, required)
       <==> (id in Chosen(selection, f.code) && id != "" && id in EnabledIds(f)) || id in required
  {
    var chosen := UniqueStrings(Chosen(selection, f.code));
    var p := (x: string) => x in EnabledIds(f);
    AddAllMember(Filter(p, chosen), required, id);
    FilterMember(p, chosen, id);
    UniqueStringsMember(Chosen(selection, f.code), id);
  }

  lemma {:induction false} FilterNoDuplicates<T>(p: T -> bool, xs: seq<T>)
    requires NoDuplicates(xs)
    ensures NoDuplicates(Filter(p, xs))
  {
    if xs != [] {
      var n := |xs| - 1;
      FilterNoDuplicates(p, xs[..n]);
      FilterMember(p, xs[..n], xs[n]);
    }
  }

  lemma WarningIdsDistinct(f: Field, selection: Selection, required: seq<string>)
    ensures Unique(WarningIds(f, selection, required)) == WarningIds(f, selection, required)
  {
    var chosen := Chosen(selection, f.code);
    AddAllNoDuplicates([], Filter((s: string) => s != "", chosen));
    FilterNoDuplicates((id: string) => id in EnabledIds(f), UniqueStrings(chosen));
    AddAllNoDuplicates(Filter((id: string) => id in EnabledIds(f), UniqueStrings(chosen)), required);
    UniqueIsIdentity(WarningIds(f, selection, required));
  }

  // ---------------------------------------------------------------- the two closures

  lemma {:induction false} RegularIdsMember(fields: seq<Field>, selection: Selection, id: string)
    ensures id in RegularIds(fields, selection)
       <==> id != "" && exists i :: 0 <= i < |fields| && id in Chosen(selection, fields[i].code)
  {
    if fields != [] {
      var n := |fields| - 1;
      RegularIdsMember(fields[..n], selection, id);
      AddAllMember(RegularIds(fields[..n], selection), UniqueStrings(Chosen(selection, fields[n].code)), id);
      UniqueStringsMember(Chosen(selection, fields[n].code), id);
      assert forall i :: 0 <= i < n ==> fields[..n][i] == fields[i];
    }
  }

  /** Without empty ids the builder collects what the validator collected. */
  lemma {:induction false} SameIds(fields: seq<Field>, selection: Selection, other: Selection)
    requires forall i :: 0 <= i < |fields| ==> Chosen(selection, fields[i].code) == Chosen(other, fields[i].code)
    ensures RegularIds(fields, selection) == RegularIds(fields, other)
    ensures (forall i :: 0 <= i < |fields| ==> "" !in Chosen(selection, fields[i].code))
        ==> AllIds(fields, other) == RegularIds(fields, selection)
  {
    if fields != [] {
      var n := |fields| - 1;
      assert forall i :: 0 <= i < n ==> fields[..n][i] == fields[i];
      SameIds(fields[..n], selection, other);
      if forall i :: 0 <= i < |fields| ==> "" !in Chosen(selection, fields[i].code) {
        FilterAll((s: string) => s != "", Chosen(selection, fields[n].code));
      }
    }
  }

  lemma {:induction false} ValueMapEntries(values: seq<Value>)
    ensures forall i :: 0 <= i < |ValueMap(values)| ==>
              ValueMap(values)[i].1 in values && ValueMap(values)[i].1.id == ValueMap(values)[i].0
  {
    if values != [] {
      var n := |values| - 1;
      ValueMapEntries(values[..n]);
      assert values == values[..n] + [values[n]];
    }
  }

  /** Nothing is pushed when every mandatory warning is there. */
  lemma {:induction false} NothingPushed(entries: seq<(string, Value)>, ids: seq<string>, have: seq<string>)
    requires forall i :: 0 <= i < |entries| && MappedFrom(entries[i].1, ids) ==> entries[i].0 in have
    ensures PushRequired(entries, ids, have) == have
  {
    if entries != [] { NothingPushed(entries[..|entries| - 1], ids, have); }
  }

  lemma {:induction false} PushKeeps(entries: seq<(string, Value)>, ids: seq<string>, have: seq<string>, id: string)
    requires id in have
    ensures id in PushRequired(entries, ids, have)
  {
    if entries != [] { PushKeeps(entries[..|entries| - 1], ids, have, id); }
  }

  /** The facts about a valid assignment: what it selects is `selected`. */
  ghost predicate Closed(regular: seq<Field>, warning: Field, selection: Selection, selected: Selection) {
    var ids := RegularIds(regular, selection);
    && (forall i :: 0 <= i < |regular| ==> Chosen(selected, regular[i].code) == Chosen(selection, regular[i].code))
    && (forall i :: 0 <= i < |regular| ==> regular[i].code != warning.code)
    && Chosen(selected, warning.code) == WarningIds(warning, selection, Required(EnabledValues(warning), ids))
    && RegularBlockers(regular, selection) == []
    && ConflictBlockers(ids, RegularById(regular), ids) == []
    && WarningBlockers(UniqueStrings(Chosen(selection, warning.code)), warning) == []
  }

  lemma ValidIsClosed(mismatch: bool, regular: seq<Field>, warning: Field, selection: Selection)
    requires DistinctCodes(regular + [warning]) && ValidateFields(mismatch, regular, warning, selection).Valid()
    ensures !mismatch && Closed(regular, warning, selection, ValidateFields(mismatch, regular, warning, selection).selected)
    ensures Chosen(ValidateFields(mismatch, regular, warning, selection).selected, warning.code) != []
  {
    hide RegularIds, RegularBlockers, ConflictBlockers, WarningBlockers, WarningIds, Required, RegularById;
    hide UniqueStrings, EnabledValues;
    var fields := regular + [warning];
    forall i | 0 <= i < |regular| ensures regular[i].code != warning.code {
      assert fields[i].code != fields[|regular|].code;
    }
  }

  /** Every id that was kept for a regular field is enabled. */
  lemma RegularKnown(regular: seq<Field>, warning: Field, selection: Selection, selected: Selection, i: nat, id: string)
    requires Closed(regular, warning, selection, selected) && i < |regular|
    requires id in Chosen(selected, regular[i].code) && id != ""
    ensures id in EnabledIds(regular[i])
  {
    hide Chosen, RegularBlockers, EnabledIds, Invalid;
    RegularBlockersNone(regular, selection, i);
    assert Invalid(regular[i], selection) == [];
    NothingInvalid(regular[i], selection, id);
  }

  /** So is every warning, selected or required. */
  lemma WarningKnown(regular: seq<Field>, warning: Field, selection: Selection, selected: Selection, id: string)
    requires Closed(regular, warning, selection, selected) && id in Chosen(selected, warning.code)
    ensures id in EnabledIds(warning)
  {
    var ids := RegularIds(regular, selection);
    hide RegularIds, Chosen, WarningIds, Required;
    WarningIdsMember(warning, selection, Required(EnabledValues(warning), ids), id);
    RequiredMember(EnabledValues(warning), ids, id);
    IdsMember(EnabledValues(warning), id);
  }

  ghost predicate NoEmptyIds(regular: seq<Field>, warning: Field, selected: Selection) {
    && (forall i :: 0 <= i < |regular| ==> "" !in Chosen(selected, regular[i].code))
    && "" !in Chosen(selected, warning.code)
  }

  /** The warnings the builder sends are the selected ones: it adds none. */
  lemma NoWarningAdded(regular: seq<Field>, warning: Field, selection: Selection, selected: Selection)
    requires Closed(regular, warning, selection, selected) && NoEmptyIds(regular, warning, selected)
    ensures Sent(warning, regular, warning, selected) == Unique(Chosen(selected, warning.code)) == Chosen(selected, warning.code)
  {
    var ids := RegularIds(regular, selection);
    var required := Required(EnabledValues(warning), ids);
    var entries := ValueMap(EnabledValues(warning));
    var have := Chosen(selected, warning.code);
    SameIds(regular, selection, selected);
    assert AllIds(regular, selected) == ids;
    ValueMapEntries(EnabledValues(warning));
    WarningIdsDistinct(warning, selection, required);
    hide RegularIds, Chosen, WarningIds, Required, AllIds, ValueMap, Unique, EnabledValues, MappedFrom;
    forall e | 0 <= e < |entries| && MappedFrom(entries[e].1, ids) ensures entries[e].0 in have {
      RequiredMember(EnabledValues(warning), ids, entries[e].0);
      WarningIdsMember(warning, selection, required, entries[e].0);
    }
    NothingPushed(entries, ids, have);
  }

  // ---------------------------------------------------------------- main results

  /** Every field of a closed selection without empty ids passes the builder's checks. */
  lemma FieldAccepted(regular: seq<Field>, warning: Field, selection: Selection, selected: Selection, f: Field)
    requires Closed(regular, warning, selection, selected) && NoEmptyIds(regular, warning, selected)
    requires f == warning || f in regular
    ensures KnownOnly(f, selected)
    ensures Sent(f, regular, warning, selected) == Unique(Chosen(selected, f.code))
    ensures "" !in Sent(f, regular, warning, selected)
  {
    if f == warning {
      forall id | id in Chosen(selected, f.code) ensures id in EnabledIds(f) {
        WarningKnown(regular, warning, selection, selected, id);
      }
      NoWarningAdded(regular, warning, selection, selected);
    } else {
      var i :| 0 <= i < |regular| && regular[i] == f;
      hide Chosen, EnabledIds, Unique;
      forall id | id in Chosen(selected, f.code) ensures id in EnabledIds(f) {
        RegularKnown(regular, warning, selection, selected, i, id);
      }
      AddAllMember([], Chosen(selected, f.code), "");
      assert Unique(Chosen(selected, f.code)) == AddAll([], Chosen(selected, f.code)) by { UniqueIsAddAll(Chosen(selected, f.code)); }
    }
  }

  lemma UniqueIsAddAll(xs: seq<string>)
    ensures Unique(xs) == AddAll([], xs)
  {
  }

  /** An empty id that was selected is still there when the builder refuses it. */
  lemma EmptyIdRefused(regular: seq<Field>, warning: Field, selected: Selection, f: Field)
    requires "" in Chosen(selected, f.code)
    ensures !FieldSendable(f, regular, warning, selected)
  {
    var chosen := Unique(Chosen(selected, f.code));
    UniqueIsAddAll(Chosen(selected, f.code));
    hide Chosen, Unique, AllIds, ValueMap;
    AddAllMember([], Chosen(selected, f.code), "");
    PushKeeps(ValueMap(EnabledValues(warning)), AllIds(regular, selected), chosen, "");
  }

  /** On a closed selection the builder succeeds exactly when the names it copies are not blank
      and no id is empty; it then sends the selected values. */
  lemma BuildOfClosed(regular: seq<Field>, warning: Field, selection: Selection, selected: Selection,
                      certificateTypeCode: string, skcNames: seq<string>)
    requires Closed(regular, warning, selection, selected)
    ensures var fields := regular + [warning];
            var b := BuildFields(certificateTypeCode, skcNames, regular, warning, selected);
      && (b.Ok? <==>
            && HasText(certificateTypeCode) && SkcNames(skcNames) != []
            && forall i :: 0 <= i < |fields| ==> HasText(fields[i].code) && "" !in Chosen(selected, fields[i].code))
      && (b.Ok? ==>
            && |b.body.fieldList| == |fields|
            && forall i :: 0 <= i < |fields| ==>
                 b.body.fieldList[i] == (Trim(fields[i].code), Unique(Chosen(selected, fields[i].code))))
  {
    hide Closed, Chosen, Unique, HasText, Trim, SkcNames, Sent, KnownOnly;
    var fields := regular + [warning];
    if forall i :: 0 <= i < |fields| ==> HasText(fields[i].code) && "" !in Chosen(selected, fields[i].code) {
      assert NoEmptyIds(regular, warning, selected) by {
        assert forall i :: 0 <= i < |regular| ==> fields[i] == regular[i];
        assert fields[|regular|] == warning;
      }
      forall i | 0 <= i < |fields|
        ensures KnownOnly(fields[i], selected) && FieldSendable(fields[i], regular, warning, selected)
        ensures Sent(fields[i], regular, warning, selected) == Unique(Chosen(selected, fields[i].code))
      {
        FieldAccepted(regular, warning, selection, selected, fields[i]);
      }
    } else {
      var i :| 0 <= i < |fields| && !(HasText(fields[i].code) && "" !in Chosen(selected, fields[i].code));
      if "" in Chosen(selected, fields[i].code) { EmptyIdRefused(regular, warning, selected, fields[i]); }
      assert !FieldSendable(fields[i], regular, warning, selected);
    }
  }

  /** A valid assignment whose fields have distinct codes. */
  ghost predicate Accepted(requirementCode: string, rules: Rules, selection: Selection) {
    Validate(requirementCode, rules, selection).Valid() && DistinctCodes(ActiveFields(rules))
  }

  lemma AcceptedIsClosed(requirementCode: string, rules: Rules, selection: Selection)
    requires Accepted(requirementCode, rules, selection)
    ensures var fields := ActiveFields(rules);
      && fields != [] && fields == Regular(fields) + [Warning(fields)]
      && Closed(Regular(fields), Warning(fields), selection, Validate(requirementCode, rules, selection).selected)
  {
    hide ValidateFields, ActiveFields;
    var fields := ActiveFields(rules);
    assert fields != [] ==> fields == Regular(fields) + [Warning(fields)];
    assert fields != [];
    ValidIsClosed(Mismatch(requirementCode, rules), Regular(fields), Warning(fields), selection);
  }

  /** The builder accepts a valid assignment exactly when the names it copies are not blank and
      no empty id was selected; it then sends the selected values and adds none. */
  lemma ValidationAndCompilationAgree(
      requirementCode: string, rules: Rules, selection: Selection, certificateTypeCode: string, skcNames: seq<string>)
    requires Accepted(requirementCode, rules, selection)
    ensures var fields := ActiveFields(rules);
            var selected := Validate(requirementCode, rules, selection).selected;
            var b := Build(certificateTypeCode, skcNames, rules, selected);
      && (b.Ok? <==>
            && HasText(certificateTypeCode) && SkcNames(skcNames) != []
            && forall i :: 0 <= i < |fields| ==> HasText(fields[i].code) && "" !in Chosen(selected, fields[i].code))
      && (b.Ok? ==>
            && |b.body.fieldList| == |fields|
            && forall i :: 0 <= i < |fields| ==>
                 b.body.fieldList[i] == (Trim(fields[i].code), Unique(Chosen(selected, fields[i].code))))
  {
    AcceptedIsClosed(requirementCode, rules, selection);
    hide Validate, ActiveFields, BuildFields, Closed, Chosen, Unique, HasText, Trim, SkcNames, Regular, Warning;
    var fields := ActiveFields(rules);
    var selected := Validate(requirementCode, rules, selection).selected;
    BuildOfClosed(Regular(fields), Warning(fields), selection, selected, certificateTypeCode, skcNames);
  }

  /** A validated selection carries every warning mapped from any regular value it carries. */
  lemma MappedWarningsAreSelected(
      requirementCode: string, rules: Rules, selection: Selection, i: nat, id: string, w: Value, path: nat)
    requires Accepted(requirementCode, rules, selection)
    requires var fields := ActiveFields(rules);
             var selected := Validate(requirementCode, rules, selection).selected;
      && fields != [] && i < |fields| - 1
      && id in Unique(Chosen(selected, fields[i].code)) && id != ""
      && w in EnabledValues(Warning(fields))
    requires path < |w.mappingPaths| && id in w.mappingPaths[path]
    ensures var fields := ActiveFields(rules);
            w.id in Unique(Chosen(Validate(requirementCode, rules, selection).selected, Warning(fields).code))
  {
    AcceptedIsClosed(requirementCode, rules, selection);
    var fields := ActiveFields(rules);
    var selected := Validate(requirementCode, rules, selection).selected;
    assert Regular(fields)[i] == fields[i];
    MappedInClosed(Regular(fields), Warning(fields), selection, selected, i, id, w, path);
  }

  lemma MappedInClosed(regular: seq<Field>, warning: Field, selection: Selection, selected: Selection,
                       i: nat, id: string, w: Value, path: nat)
    requires Closed(regular, warning, selection, selected) && i < |regular|
    requires id in Unique(Chosen(selected, regular[i].code)) && id != "" && w in EnabledValues(warning)
    requires path < |w.mappingPaths| && id in w.mappingPaths[path]
    ensures w.id in Unique(Chosen(selected, warning.code))
  {
    var ids := RegularIds(regular, selection);
    RegularIdsMember(regular, selection, id);
    AddAllMember([], Chosen(selected, regular[i].code), id);
    AddAllMember([], Chosen(selected, warning.code), w.id);
    hide RegularIds, Chosen, WarningIds, Required;
    assert MappedFrom(w, ids) by {
      var k :| 0 <= k < |w.mappingPaths[path]| && w.mappingPaths[path][k] == id;
    }
    RequiredMember(EnabledValues(warning), ids, w.id);
    WarningIdsMember(warning, selection, Required(EnabledValues(warning), ids), w.id);
  }

  /** No regular value in a validated selection excludes another one in it. */
  lemma NoExclusionIsSelected(
      requirementCode: string, rules: Rules, selection: Selection, i: nat, j: nat, a: string, c: string)
    requires Accepted(requirementCode, rules, selection)
    requires var fields := ActiveFields(rules);
             var selected := Validate(requirementCode, rules, selection).selected;
      && fields != [] && i < |fields| - 1 && j < |fields| - 1 && a != "" && c != ""
      && a in Unique(Chosen(selected, fields[i].code)) && c in Unique(Chosen(selected, fields[j].code))
    ensures var byId := RegularById(Regular(ActiveFields(rules)));
            a in byId && c !in byId[a].exclusions
  {
    AcceptedIsClosed(requirementCode, rules, selection);
    var fields := ActiveFields(rules);
    var selected := Validate(requirementCode, rules, selection).selected;
    assert Regular(fields)[i] == fields[i] && Regular(fields)[j] == fields[j];
    NoExclusionInClosed(Regular(fields), Warning(fields), selection, selected, i, j, a, c);
  }

  lemma NoExclusionInClosed(regular: seq<Field>, warning: Field, selection: Selection, selected: Selection,
                            i: nat, j: nat, a: string, c: string)
    requires Closed(regular, warning, selection, selected) && i < |regular| && j < |regular| && a != "" && c != ""
    requires a in Unique(Chosen(selected, regular[i].code)) && c in Unique(Chosen(selected, regular[j].code))
    ensures var byId := RegularById(regular); a in byId && c !in byId[a].exclusions
  {
    var byId := RegularById(regular);
    var ids := RegularIds(regular, selection);
    AddAllMember([], Chosen(selected, regular[i].code), a);
    RegularKnown(regular, warning, selection, selected, i, a);
    RegularByIdHas(regular, i, a);
    RegularIdsMember(regular, selection, a);
    RegularIdsMember(regular, selection, c);
    AddAllMember([], Chosen(selected, regular[j].code), c);
    hide RegularIds, Chosen, RegularById, WarningIds, Required;
    var p :| 0 <= p < |ids| && ids[p] == a;
    ConflictBlockersNone(ids, byId, ids, p);
    if c in byId[a].exclusions {
      UniqueStringsMember(byId[a].exclusions, c);
      FilterMember((x: string) => x in ids, UniqueStrings(byId[a].exclusions), c);
    }
  }

  lemma {:induction false} ByIdLast(values: seq<Value>, v: Value)
    requires v in values && forall x, y :: x in values && y in values && x.id == y.id ==> x == y
    ensures v.id in ById(values) && ById(values)[v.id] == v
  {
    var n := |values| - 1;
    assert values == values[..n] + [values[n]];
    if v in values[..n] { ByIdLast(values[..n], v); }
  }

  lemma {:induction false} ByIdKeys(values: seq<Value>, id: string)
    requires id in ById(values)
    ensures exists v :: v in values && v.id == id
  {
    var n := |values| - 1;
    assert values == values[..n] + [values[n]];
    if id != values[n].id { ByIdKeys(values[..n], id); }
  }

  lemma {:induction false} ByIdHas(values: seq<Value>, id: string)
    ensures id in Ids(values) ==> id in ById(values)
  {
    if values != [] {
      var n := |values| - 1;
      ByIdHas(values[..n], id);
      assert Ids(values)[..n] == Ids(values[..n]);
      assert Ids(values) == Ids(values[..n]) + [values[n].id];
    }
  }

  lemma {:induction false} RegularByIdHas(fields: seq<Field>, i: nat, id: string)
    requires i < |fields| && id in EnabledIds(fields[i])
    ensures id in RegularById(fields)
  {
    hide EnabledValues, ById;
    var n := |fields| - 1;
    if i == n {
      ByIdHas(EnabledValues(fields[n]), id);
    } else {
      RegularByIdHas(fields[..n], i, id);
    }
  }

  ghost predicate UniqueIds(fields: seq<Field>) {
    forall p, q, x, y | 0 <= p < |fields| && 0 <= q < |fields| ::
      x in EnabledValues(fields[p]) && y in EnabledValues(fields[q]) && x.id == y.id ==> x == y
  }

  /** When ids are unique across the regular fields, the value consulted for an id is the value
      that has it. */
  lemma {:induction false} RegularByIdUnique(fields: seq<Field>, i: nat, v: Value)
    requires i < |fields| && v in EnabledValues(fields[i])
    requires UniqueIds(fields)
    ensures v.id in RegularById(fields) && RegularById(fields)[v.id] == v
  {
    hide EnabledValues, ById;
    var n := |fields| - 1;
    var last := ById(EnabledValues(fields[n]));
    if v.id in last {
      ByIdKeys(EnabledValues(fields[n]), v.id);
      ByIdLast(EnabledValues(fields[n]), v);
    } else {
      if i == n { ByIdLast(EnabledValues(fields[n]), v); }
      assert forall p :: 0 <= p < n ==> fields[..n][p] == fields[p];
      RegularByIdUnique(fields[..n], i, v);
    }
  }

  /** The closed selection is a fixed point: validating it again accepts it and changes nothing. */
  lemma ValidationIsFixpoint(requirementCode: string, rules: Rules, selection: Selection)
    requires Accepted(requirementCode, rules, selection)
    requires "" !in Validate(requirementCode, rules, selection).required
    ensures var v := Validate(requirementCode, rules, selection);
            Validate(requirementCode, rules, v.selected) == v
  {
    hide ActiveFields, ValidateFields, DistinctCodes;
    var fields := ActiveFields(rules);
    assert fields != [] ==> fields == Regular(fields) + [Warning(fields)];
    FieldsFixpoint(Mismatch(requirementCode, rules), Regular(fields), Warning(fields), selection);
  }

  lemma FieldsFixpoint(mismatch: bool, regular: seq<Field>, warning: Field, selection: Selection)
    requires DistinctCodes(regular + [warning])
    requires var v := ValidateFields(mismatch, regular, warning, selection); v.Valid() && "" !in v.required
    ensures var v := ValidateFields(mismatch, regular, warning, selection);
            ValidateFields(mismatch, regular, warning, v.selected) == v
  {
    var v := ValidateFields(mismatch, regular, warning, selection);
    hide RegularIds, RegularBlockers, ConflictBlockers, WarningBlockers, WarningIds, Required, RegularById;
    hide UniqueStrings, EnabledValues, DistinctCodes;
    FixpointParts(mismatch, regular, warning, selection);
    assert v.selected[warning.code := Chosen(v.selected, warning.code)] == v.selected;
  }

  /** Each part of validating the closed selection is what it was before. */
  lemma FixpointParts(mismatch: bool, regular: seq<Field>, warning: Field, selection: Selection)
    requires DistinctCodes(regular + [warning])
    requires var v := ValidateFields(mismatch, regular, warning, selection); v.Valid() && "" !in v.required
    ensures var v := ValidateFields(mismatch, regular, warning, selection);
      && RegularIds(regular, v.selected) == RegularIds(regular, selection)
      && RegularBlockers(regular, v.selected) == RegularBlockers(regular, selection)
      && WarningIds(warning, v.selected, v.required) == Chosen(v.selected, warning.code) != []
      && WarningBlockers(UniqueStrings(Chosen(v.selected, warning.code)), warning) == []
  {
    var v := ValidateFields(mismatch, regular, warning, selection);
    assert v.required == Required(EnabledValues(warning), RegularIds(regular, selection));
    hide RegularIds, RegularBlockers, ConflictBlockers, WarningBlockers, WarningIds, Required, RegularById;
    hide UniqueStrings, EnabledValues, ValidateFields, Chosen;
    ValidIsClosed(mismatch, regular, warning, selection);
    SameIds(regular, selection, v.selected);
    SameRegularBlockers(regular, selection, v.selected);
    forall id | id in v.required ensures id in EnabledIds(warning) {
      RequiredMember(EnabledValues(warning), RegularIds(regular, selection), id);
      IdsMember(EnabledValues(warning), id);
    }
    FixpointWarnings(warning, selection, v.selected, v.required);
  }

  lemma {:induction false} SameRegularBlockers(fields: seq<Field>, selection: Selection, other: Selection)
    requires forall i :: 0 <= i < |fields| ==> Chosen(selection, fields[i].code) == Chosen(other, fields[i].code)
    ensures RegularBlockers(fields, selection) == RegularBlockers(fields, other)
  {
    if fields != [] {
      var n := |fields| - 1;
      assert forall i :: 0 <= i < n ==> fields[..n][i] == fields[i];
      SameRegularBlockers(fields[..n], selection, other);
    }
  }

  lemma {:induction false} AllKnownNoBlockers(ids: seq<string>, f: Field)
    requires forall id :: id in ids ==> id in EnabledIds(f)
    ensures WarningBlockers(ids, f) == []
  {
    if ids != [] {
      var n := |ids| - 1;
      assert forall id :: id in ids[..n] ==> id in ids;
      AllKnownNoBlockers(ids[..n], f);
      assert ids[n] in ids;
    }
  }

  lemma FixpointWarnings(f: Field, selection: Selection, selected: Selection, required: seq<string>)
    requires Chosen(selected, f.code) == WarningIds(f, selection, required)
    requires "" !in required && forall id :: id in required ==> id in EnabledIds(f)
    ensures WarningIds(f, selected, required) == Chosen(selected, f.code)
    ensures WarningBlockers(UniqueStrings(Chosen(selected, f.code)), f) == []
  {
    var ws := Chosen(selected, f.code);
    forall id | id in ws ensures id != "" && id in EnabledIds(f) { WarningIdsMember(f, selection, required, id); }
    WarningIdsDistinct(f, selection, required);
    FilterAll((s: string) => s != "", ws);
    assert UniqueStrings(ws) == ws;
    FilterAll((id: string) => id in EnabledIds(f), ws);
    forall id | id in required ensures id in ws { WarningIdsMember(f, selection, required, id); }
    AddAllKnown(ws, required);
    AllKnownNoBlockers(ws, f);
  }

  /** A built body names the given SKCs and certificate type. */
  lemma BuiltFor(certificateTypeCode: string, skcNames: seq<string>, rules: Rules, selection: Selection)
    ensures var b := Build(certificateTypeCode, skcNames, rules, selection);
            b.Ok? ==> b.body.skcNames == SkcNames(skcNames) != [] && b.body.certificateTypeCode == Trim(certificateTypeCode)
  {
    hide ActiveFields, SentFields, SkcNames, Trim, HasText, FirstUnknown, FirstUnsendable;
  }

  /** The body built from a valid assignment. */
  ghost predicate BuiltBody(requirementCode: string, rules: Rules, selection: Selection,
                            certificateTypeCode: string, skcNames: seq<string>, body: Body) {
    && Accepted(requirementCode, rules, selection)
    && Build(certificateTypeCode, skcNames, rules, Validate(requirementCode, rules, selection).selected) == Ok(body)
  }

  /** A body sent carries in its last field every warning mapped from any value of its other fields. */
  lemma MappedWarningsAreSent(
      requirementCode: string, rules: Rules, selection: Selection, certificateTypeCode: string,
      skcNames: seq<string>, body: Body, i: nat, id: string, w: Value, path: nat)
    requires BuiltBody(requirementCode, rules, selection, certificateTypeCode, skcNames, body)
    ensures var fields := ActiveFields(rules); |body.fieldList| == |fields| > 0
    ensures var fields := ActiveFields(rules);
      i < |fields| - 1 && id in body.fieldList[i].1 && w in EnabledValues(Warning(fields))
        && path < |w.mappingPaths| && id in w.mappingPaths[path] ==>
      w.id in body.fieldList[|fields| - 1].1
  {
    ValidationAndCompilationAgree(requirementCode, rules, selection, certificateTypeCode, skcNames);
    AcceptedIsClosed(requirementCode, rules, selection);
    hide Accepted, Validate, Build, ActiveFields, Closed, Chosen, EnabledValues;
    var fields := ActiveFields(rules);
    if i < |fields| - 1 && id in body.fieldList[i].1 && w in EnabledValues(Warning(fields))
       && path < |w.mappingPaths| && id in w.mappingPaths[path] {
      AddAllMember([], Chosen(Validate(requirementCode, rules, selection).selected, fields[i].code), id);
      MappedWarningsAreSelected(requirementCode, rules, selection, i, id, w, path);
    }
  }

  /** No value of the fields before the last one in a body sent excludes another one in it. */
  lemma NoExclusionIsSent(
      requirementCode: string, rules: Rules, selection: Selection, certificateTypeCode: string,
      skcNames: seq<string>, body: Body, i: nat, j: nat, a: string, c: string)
    requires BuiltBody(requirementCode, rules, selection, certificateTypeCode, skcNames, body)
    ensures var fields := ActiveFields(rules); |body.fieldList| == |fields| > 0
    ensures var fields := ActiveFields(rules); var byId := RegularById(Regular(fields));
      i < |fields| - 1 && j < |fields| - 1 && a in body.fieldList[i].1 && c in body.fieldList[j].1 ==>
      a in byId && c !in byId[a].exclusions
  {
    ValidationAndCompilationAgree(requirementCode, rules, selection, certificateTypeCode, skcNames);
    AcceptedIsClosed(requirementCode, rules, selection);
    hide Accepted, Validate, Build, ActiveFields, Closed, Chosen, RegularById;
    var fields := ActiveFields(rules);
    var selected := Validate(requirementCode, rules, selection).selected;
    if i < |fields| - 1 && j < |fields| - 1 && a in body.fieldList[i].1 && c in body.fieldList[j].1 {
      AddAllMember([], Chosen(selected, fields[i].code), a);
      AddAllMember([], Chosen(selected, fields[j].code), c);
      NoExclusionIsSelected(requirementCode, rules, selection, i, j, a, c);
    }
  }

  /** One field with one warning, selected: valid, yet the builder rejects it for a requirement
      without a type code. */
  lemma ValidCanBeRejected()
    ensures var rules := Rules("", [Field("w", true, 0.0, false, [Value("x", true, [], [])])]);
      var v := Validate("", rules, map["w" := ["x"]]);
      v.Valid() && Build("", ["s"], rules, v.selected).Err?
  {
    var f := Field("w", true, 0.0, false, [Value("x", true, [], [])]);
    var rules, selection := Rules("", [f]), map["w" := ["x"]];
    OneField(f);
    OneWarning(f, selection);
    assert Accepted("", rules, selection);
    ValidationAndCompilationAgree("", rules, selection, "", ["s"]);
  }

  lemma OneField(f: Field)
    requires f.enabled
    ensures ActiveFields(Rules("", [f])) == [f]
  {
    assert [f][..0] == [];
    assert Filter((g: Field) => g.enabled, [f][..0]) == [];
    assert SortFields([f][..0]) == [];
  }

  lemma OneWarning(f: Field, selection: Selection)
    requires f.code == "w" && f.values == [Value("x", true, [], [])] && selection == map["w" := ["x"]]
    ensures ValidateFields(false, [], f, selection).Valid()
  {
    OneName();
    OneEnabled(f);
    assert Chosen(selection, f.code) == ["x"];
    OneNotBlocked(f);
    assert RegularIds([], selection) == [] && RegularBlockers([], selection) == [];
    assert ConflictBlockers([], RegularById([]), []) == [];
    hide Chosen, UniqueStrings, EnabledValues, EnabledIds, WarningBlockers, RegularIds, RegularBlockers;
    hide ConflictBlockers, RegularById, WarningIds, Required;
    WarningIdsMember(f, selection, Required(EnabledValues(f), []), "x");
  }

  lemma OneName()
    ensures UniqueStrings(["x"]) == ["x"]
  {
    FilterAll((s: string) => s != "", ["x"]);
    UniqueIsIdentity(["x"]);
  }

  lemma OneEnabled(f: Field)
    requires f.values == [Value("x", true, [], [])]
    ensures "x" in EnabledIds(f)
  {
    FilterAll((v: Value) => v.enabled, f.values);
    assert EnabledIds(f)[0] == "x";
  }

  lemma OneNotBlocked(f: Field)
    requires "x" in EnabledIds(f)
    ensures WarningBlockers(["x"], f) == []
  {
    hide EnabledIds;
    assert ["x"][..0] == [] && WarningBlockers(["x"][..0], f) == [];
  }
}
