/** What the request builder accepts and sends for any selection, validated or not. */
module WarningBuilds {
  import opened JsStrings
  import opened OrderedMap
  import opened WarningRules
  import opened WarningAgreement
  import opened WarningValidity

  // ---------------------------------------------------------------- what is picked and mandatory

  /** An id listed for the field; here the empty one counts. */
  ghost predicate Picks(selection: Selection, f: Field, id: string) { f.code in selection && id in selection[f.code] }

  ghost predicate PicksAmong(fields: seq<Field>, selection: Selection, id: string) {
    exists i :: 0 <= i < |fields| && Picks(selection, fields[i], id)
  }

  /** The value is mapped from an id listed for a regular field. */
  ghost predicate MappedFromPicked(regular: seq<Field>, selection: Selection, v: Value) {
    exists path, id :: path in v.mappingPaths && id in path && PicksAmong(regular, selection, id)
  }

  /** The last enabled warning with the id is mapped from an id listed for a regular field. */
  ghost predicate Mandatory(regular: seq<Field>, warning: Field, selection: Selection, id: string) {
    exists x: nat :: LastIn(warning.values, id, x) && MappedFromPicked(regular, selection, warning.values[x])
  }

  lemma {:induction false} AllIdsMember(fields: seq<Field>, selection: Selection, id: string)
    ensures id in AllIds(fields, selection) <==> PicksAmong(fields, selection, id)
  {
    if fields != [] {
      var n := |fields| - 1;
      AllIdsMember(fields[..n], selection, id);
      AddAllMember(AllIds(fields[..n], selection), Unique(Chosen(selection, fields[n].code)), id);
      AddAllMember([], Chosen(selection, fields[n].code), id);
      assert forall i :: 0 <= i < n ==> fields[..n][i] == fields[i];
      assert Picks(selection, fields[n], id) <==> id in Unique(Chosen(selection, fields[n].code));
    }
  }

  lemma MappedFromIff(regular: seq<Field>, selection: Selection, v: Value)
    ensures MappedFrom(v, AllIds(regular, selection)) <==> MappedFromPicked(regular, selection, v)
  {
    var ids := AllIds(regular, selection);
    hide AllIds, PicksAmong;
    forall id ensures PicksAmong(regular, selection, id) <==> id in ids { AllIdsMember(regular, selection, id); }
    if MappedFrom(v, ids) {
      var p, i :| 0 <= p < |v.mappingPaths| && 0 <= i < |v.mappingPaths[p]| && v.mappingPaths[p][i] in ids;
      assert v.mappingPaths[p] in v.mappingPaths && v.mappingPaths[p][i] in v.mappingPaths[p];
    }
    if path, id :| path in v.mappingPaths && id in path && PicksAmong(regular, selection, id) {
      var p :| 0 <= p < |v.mappingPaths| && v.mappingPaths[p] == path;
      var i :| 0 <= i < |path| && path[i] == id;
      assert v.mappingPaths[p][i] in ids;
    }
  }

  lemma PutMember(m: seq<(string, Value)>, k: string, v: Value, x: (string, Value))
    requires Distinct(m)
    ensures Distinct(Put(m, k, v)) && (x in Put(m, k, v) <==> x == (k, v) || (x in m && x.0 != k))
  {
    var i := Index(m, k);
    var r := Put(m, k, v);
    if x in m && x.0 != k {
      var j :| 0 <= j < |m| && m[j] == x;
      assert r[j] == x;
    }
    assert r[i] == (k, v);
  }

  /** The map of enabled values holds for each id the last one. */
  lemma {:induction false} ValueMapIsLast(values: seq<Value>, id: string, v: Value)
    ensures var m := ValueMap(Filter((w: Value) => w.enabled, values));
      Distinct(m) && ((id, v) in m <==> exists x: nat :: LastIn(values, id, x) && values[x] == v)
  {
    var p := (w: Value) => w.enabled;
    if values != [] {
      var n := |values| - 1;
      ValueMapIsLast(values[..n], id, v);
      hide ValueMap;
      if values[n].enabled {
        ValueMapLast(values);
        PutMember(ValueMap(Filter(p, values[..n])), values[n].id, values[n], (id, v));
      }
      if values[n].enabled && values[n].id == id {
        assert LastIn(values, id, n);
      } else {
        forall x: nat ensures LastIn(values, id, x) <==> LastIn(values[..n], id, x) { LastInPrefix(values, id, x); }
      }
    }
  }

  lemma ValueMapLast(values: seq<Value>)
    requires values != [] && values[|values| - 1].enabled
    ensures var p, n := (w: Value) => w.enabled, |values| - 1;
      ValueMap(Filter(p, values)) == Put(ValueMap(Filter(p, values[..n])), values[n].id, values[n])
  {
    var p, n := (w: Value) => w.enabled, |values| - 1;
    assert Filter(p, values)[..|Filter(p, values)| - 1] == Filter(p, values[..n]);
  }

  lemma {:induction false} PushMember(entries: seq<(string, Value)>, ids: seq<string>, have: seq<string>, id: string)
    requires NoDuplicates(have)
    ensures var r := PushRequired(entries, ids, have);
      && NoDuplicates(r) && have <= r
      && (id in r <==> id in have || exists v :: (id, v) in entries && MappedFrom(v, ids))
  {
    hide MappedFrom;
    if entries != [] {
      var n := |entries| - 1;
      PushMember(entries[..n], ids, have, id);
      assert entries == entries[..n] + [entries[n]];
      assert entries[n] == (entries[n].0, entries[n].1) && entries[n] in entries;
    }
  }

  /** What is sent for a field: what is listed for it, each id once and in order, and in the field with the
      warnings those that are mandatory. */
  lemma SentExact(f: Field, regular: seq<Field>, warning: Field, selection: Selection, id: string)
    ensures var sent := Sent(f, regular, warning, selection);
      && NoDuplicates(sent) && Unique(Chosen(selection, f.code)) <= sent
      && (id in sent <==> Picks(selection, f, id) || (f.code == warning.code && Mandatory(regular, warning, selection, id)))
  {
    var chosen := Unique(Chosen(selection, f.code));
    AddAllNoDuplicates([], Chosen(selection, f.code));
    AddAllMember([], Chosen(selection, f.code), id);
    assert id in chosen <==> Picks(selection, f, id);
    if f.code == warning.code {
      var entries, ids := ValueMap(EnabledValues(warning)), AllIds(regular, selection);
      PushMember(entries, ids, chosen, id);
      hide AllIds, ValueMap, Unique, Chosen, MappedFrom, MappedFromPicked, LastIn, PushRequired, Picks;
      forall v ensures (id, v) in entries <==> exists x: nat :: LastIn(warning.values, id, x) && warning.values[x] == v {
        ValueMapIsLast(warning.values, id, v);
      }
      forall v ensures MappedFrom(v, ids) <==> MappedFromPicked(regular, selection, v) { MappedFromIff(regular, selection, v); }
      if x: nat :| LastIn(warning.values, id, x) && MappedFromPicked(regular, selection, warning.values[x]) {
        assert (id, warning.values[x]) in entries;
      }
    }
  }

  // ---------------------------------------------------------------- acceptance

  ghost predicate Known(f: Field, selection: Selection) { forall id :: Picks(selection, f, id) ==> Offers(f, id) }

  lemma KnownIff(f: Field, selection: Selection)
    ensures KnownOnly(f, selection) <==> Known(f, selection)
  {
    hide EnabledIds, Offers;
    forall id ensures id in EnabledIds(f) <==> Offers(f, id) { OffersIff(f, id); }
    assert forall id :: id in Chosen(selection, f.code) <==> Picks(selection, f, id);
  }

  ghost predicate NamesSome(skcNames: seq<string>) { exists s :: s in skcNames && HasText(s) }

  lemma NamesSomeIff(skcNames: seq<string>)
    ensures SkcNames(skcNames) != [] <==> NamesSome(skcNames)
  {
    var trimmed := seq(|skcNames|, i requires 0 <= i < |skcNames| => Trim(skcNames[i]));
    hide Trim;
    if SkcNames(skcNames) != [] {
      var s := SkcNames(skcNames)[0];
      UniqueStringsMember(trimmed, s);
      var i :| 0 <= i < |trimmed| && trimmed[i] == s;
      assert skcNames[i] in skcNames && HasText(skcNames[i]);
    }
    if s :| s in skcNames && HasText(s) {
      var i :| 0 <= i < |skcNames| && skcNames[i] == s;
      assert trimmed[i] in trimmed;
      UniqueStringsMember(trimmed, trimmed[i]);
    }
  }

  /** No id of the field is empty, and its code is not blank. */
  ghost predicate CanBeSent(f: Field, regular: seq<Field>, warning: Field, selection: Selection) {
    && HasText(f.code) && !Picks(selection, f, "")
    && !(f.code == warning.code && Mandatory(regular, warning, selection, ""))
  }

  lemma CanBeSentIff(f: Field, regular: seq<Field>, warning: Field, selection: Selection)
    ensures FieldSendable(f, regular, warning, selection) <==> CanBeSent(f, regular, warning, selection)
  {
    hide Sent, Picks, Mandatory;
    SentExact(f, regular, warning, selection, "");
  }

  /** What the builder asks for, in the order in which it asks. */
  ghost predicate Refuses(typeCode: string, skcNames: seq<string>, fields: seq<Field>, selection: Selection, e: BuildError) {
    if fields == [] then e == NoRules
    else
      var regular, warning := fields[..|fields| - 1], fields[|fields| - 1];
      if exists i :: 0 <= i < |fields| && !Known(fields[i], selection) then
        exists i :: FirstBad(fields, selection, i) && e == UnknownValue(fields[i].code)
      else if !HasText(typeCode) then e == CertificateTypeCodeRequired
      else if !NamesSome(skcNames) then e == SkcNamesRequired
      else exists i: nat :: FirstBlank(fields, regular, warning, selection, i)
                            && e == if HasText(fields[i].code) then FieldValueIdRequired(i) else FieldCodeRequired(i)
  }

  ghost predicate FirstBad(fields: seq<Field>, selection: Selection, i: int) {
    0 <= i < |fields| && !Known(fields[i], selection) && forall j :: 0 <= j < i ==> Known(fields[j], selection)
  }

  ghost predicate FirstBlank(fields: seq<Field>, regular: seq<Field>, warning: Field, selection: Selection, i: int) {
    && 0 <= i < |fields| && !CanBeSent(fields[i], regular, warning, selection)
    && forall j :: 0 <= j < i ==> CanBeSent(fields[j], regular, warning, selection)
  }

  /** What is sent for a field, under its code. */
  ghost predicate CarriesSent(entry: (string, seq<string>), f: Field, regular: seq<Field>, warning: Field, selection: Selection) {
    && entry.0 == Trim(f.code) && NoDuplicates(entry.1) && Unique(Chosen(selection, f.code)) <= entry.1
    && forall id :: id in entry.1 <==>
         Picks(selection, f, id) || (f.code == warning.code && Mandatory(regular, warning, selection, id))
  }

  /** The body lists every active field in order with what is sent for it. */
  ghost predicate Lists(b: Body, typeCode: string, skcNames: seq<string>, fields: seq<Field>, selection: Selection)
    requires fields != []
  {
    var regular, warning := fields[..|fields| - 1], fields[|fields| - 1];
    && b.certificateTypeCode == Trim(typeCode) && b.skcNames == SkcNames(skcNames) && |b.fieldList| == |fields|
    && forall i :: 0 <= i < |fields| ==> CarriesSent(b.fieldList[i], fields[i], regular, warning, selection)
  }

  lemma BuildFieldsExact(typeCode: string, skcNames: seq<string>, regular: seq<Field>, warning: Field, selection: Selection)
    ensures var fields := regular + [warning]; var b := BuildFields(typeCode, skcNames, regular, warning, selection);
      && (b.Err? ==> Refuses(typeCode, skcNames, fields, selection, b.error))
      && (b.Ok? ==>
            && HasText(typeCode) && NamesSome(skcNames)
            && forall i :: 0 <= i < |fields| ==>
                 Known(fields[i], selection) && CanBeSent(fields[i], regular, warning, selection))
  {
    var fields := regular + [warning];
    hide KnownOnly, Known, SkcNames, NamesSome, HasText, FieldSendable, CanBeSent, Trim, SentFields;
    forall i | 0 <= i < |fields| ensures KnownOnly(fields[i], selection) <==> Known(fields[i], selection) {
      KnownIff(fields[i], selection);
    }
    NamesSomeIff(skcNames);
    forall i | 0 <= i < |fields|
      ensures FieldSendable(fields[i], regular, warning, selection) <==> CanBeSent(fields[i], regular, warning, selection)
    {
      CanBeSentIff(fields[i], regular, warning, selection);
    }
    assert fields[..|fields| - 1] == regular;
    var unknown := FirstUnknown(fields, selection);
    if unknown < |fields| {
      assert FirstBad(fields, selection, unknown);
    } else if HasText(typeCode) && NamesSome(skcNames) {
      var blank := FirstUnsendable(fields, regular, warning, selection);
      if blank < |fields| { assert FirstBlank(fields, regular, warning, selection, blank); }
    }
  }

  /** For any selection: the builder refuses what lacks something, with the first thing that it lacks, and
      otherwise sends every active field with what is listed for it and what the mapping demands. */
  lemma BuildExact(typeCode: string, skcNames: seq<string>, rules: Rules, selection: Selection)
    ensures var fields := ActiveFields(rules); var n := |fields| - 1; var b := Build(typeCode, skcNames, rules, selection);
      && (b.Err? ==> Refuses(typeCode, skcNames, fields, selection, b.error))
      && (b.Ok? <==>
            && fields != [] && HasText(typeCode) && NamesSome(skcNames)
            && forall i :: 0 <= i < |fields| ==>
                 Known(fields[i], selection) && CanBeSent(fields[i], fields[..n], fields[n], selection))
      && (b.Ok? ==> Lists(b.body, typeCode, skcNames, fields, selection))
  {
    var fields := ActiveFields(rules);
    hide ActiveFields, BuildFields, Known, NamesSome, HasText, CanBeSent, Lists;
    if fields != [] {
      BuildFieldsExact(typeCode, skcNames, Regular(fields), Warning(fields), selection);
      assert Regular(fields) + [Warning(fields)] == fields;
      if HasText(typeCode) && NamesSome(skcNames)
         && forall i :: 0 <= i < |fields| ==>
              Known(fields[i], selection) && CanBeSent(fields[i], Regular(fields), Warning(fields), selection) {
        NotBoth(typeCode, skcNames, fields, selection);
      }
      BuiltLists(typeCode, skcNames, Regular(fields), Warning(fields), selection);
    }
  }

  lemma NotBoth(typeCode: string, skcNames: seq<string>, fields: seq<Field>, selection: Selection)
    requires fields != [] && HasText(typeCode) && NamesSome(skcNames)
    requires forall i :: 0 <= i < |fields| ==>
      Known(fields[i], selection) && CanBeSent(fields[i], fields[..|fields| - 1], fields[|fields| - 1], selection)
    ensures forall e :: !Refuses(typeCode, skcNames, fields, selection, e)
  {
    hide Known, NamesSome, HasText, CanBeSent;
  }

  lemma BuiltLists(typeCode: string, skcNames: seq<string>, regular: seq<Field>, warning: Field, selection: Selection)
    ensures var b := BuildFields(typeCode, skcNames, regular, warning, selection);
      b.Ok? ==> Lists(b.body, typeCode, skcNames, regular + [warning], selection)
  {
    var fields := regular + [warning];
    assert fields[..|fields| - 1] == regular;
    var b := BuildFields(typeCode, skcNames, regular, warning, selection);
    hide FirstUnknown, FirstUnsendable, HasText, SkcNames, Trim, Sent, CarriesSent;
    if b.Ok? {
      forall i | 0 <= i < |fields| ensures CarriesSent(b.body.fieldList[i], fields[i], regular, warning, selection) {
        SentCarried(fields[i], regular, warning, selection);
      }
    }
  }

  lemma SentCarried(f: Field, regular: seq<Field>, warning: Field, selection: Selection)
    ensures CarriesSent((Trim(f.code), Sent(f, regular, warning, selection)), f, regular, warning, selection)
  {
    hide Sent, Picks, Mandatory, Unique, Chosen, NoDuplicates, Trim;
    SentExact(f, regular, warning, selection, "");
    forall id ensures id in Sent(f, regular, warning, selection) <==>
      Picks(selection, f, id) || (f.code == warning.code && Mandatory(regular, warning, selection, id))
    {
      SentExact(f, regular, warning, selection, id);
    }
  }
}
