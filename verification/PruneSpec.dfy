/** What pruning the experimental parts takes out of a bundle and what it leaves, said about the values
    before and after. */
module PruneSpec {
  import opened Json
  import opened Paths
  import opened Prune
  import opened Sequences
  import opened Variants
  import opened Wrappers
  import Flatten

  // ----- fields

  /** The type itself, or a path that ends in it. */
  ghost predicate OfType(name: string, typeName: string)
  {
    name == typeName || exists path :: name == path + "::" + typeName
  }

  lemma {:induction false} MatchesIff(name: string, typeName: string)
    ensures Matches(name, typeName) <==> OfType(name, typeName)
  {
    var suffix := "::" + typeName;
    if Matches(name, typeName) && name != typeName {
      var path := name[..|name| - |suffix|];
      assert name == path + suffix && path + suffix == path + "::" + typeName;
    }
    if path :| name == path + "::" + typeName {
      assert name == path + suffix;
      assert name[|name| - |suffix|..] == suffix;
    }
  }

  /** `b` is the schema `a` without the named fields: they are no properties and not required, there or in
      what its `schema` holds, and everything else is as it was. */
  ghost predicate FieldsGone(a: Value, b: Value, fields: set<string>)
  {
    if !a.Object? then b == a
    else
      && b.Object? && b.members.Keys == a.members.Keys
      && forall k | k in a.members :: if k == "schema" then FieldsGone(a.members[k], b.members[k], fields)
                                      else MemberGone(k, a.members[k], b.members[k], fields)
  }

  ghost predicate MemberGone(k: string, a: Value, b: Value, fields: set<string>)
  {
    if k == "properties" && a.Object? then b == Object(a.members - fields)
    else if k == "required" && a.Array? then
      b.Array? && exists at :: Positions(a.items, NotNamed(fields), at) && Selects(a.items, b.items, at)
    else b == a
  }

  function NotNamed(fields: set<string>): Value -> bool { v => !NamesOne(v, fields) }

  predicate NamesOne(v: Value, fields: set<string>) { v.String? && v.s in fields }

  lemma {:induction false} UnrequiredSelects(items: seq<Value>, field: string) returns (at: seq<nat>)
    ensures Positions(items, NotNamed({field}), at) && Selects(items, Unrequired(items, field), at)
  {
    if items == [] {
      at := [];
    } else {
      var rest := UnrequiredSelects(items[1..], field);
      PositionsCons(items, NotNamed({field}), rest);
      SelectsMoved(items, Unrequired(items[1..], field), rest);
      at := if NamesOne(items[0], {field}) then Moved(rest) else [0] + Moved(rest);
    }
  }

  lemma {:induction false} PropertyGone(v: Value, field: string)
    ensures FieldsGone(v, RemoveProperty(v, field), {field})
  {
    if v.Object? {
      if "required" in v.members && v.members["required"].Array? {
        var at := UnrequiredSelects(v.members["required"].items, field);
      }
      if "schema" in v.members { PropertyGone(v.members["schema"], field); }
    }
  }

  lemma {:induction false} NoFieldGone(v: Value)
    ensures FieldsGone(v, v, {})
  {
    if v.Object? {
      if "required" in v.members && v.members["required"].Array? { AllSelected(v.members["required"].items); }
      if "schema" in v.members { NoFieldGone(v.members["schema"]); }
      if "properties" in v.members && v.members["properties"].Object? {
        var none: set<string> := {};
        assert v.members["properties"].members - none == v.members["properties"].members;
      }
    }
  }

  lemma AllSelected(items: seq<Value>)
    ensures exists at :: Positions(items, NotNamed({}), at) && Selects(items, items, at)
  {
    var at := seq(|items|, i requires 0 <= i < |items| => i);
    forall i: nat ensures i in at <==> i < |items| && !NamesOne(items[i], {}) {
      if i < |items| { assert at[i] == i; }
    }
    assert Positions(items, NotNamed({}), at) && Selects(items, items, at);
  }

  lemma MemberGoneTwice(k: string, a: Value, b: Value, c: Value, f: set<string>, g: set<string>)
    requires MemberGone(k, a, b, f) && MemberGone(k, b, c, g)
    ensures MemberGone(k, a, c, f + g)
  {
    if k == "properties" && a.Object? {
      assert a.members - f - g == a.members - (f + g);
    } else if k == "required" && a.Array? {
      var at :| Positions(a.items, NotNamed(f), at) && Selects(a.items, b.items, at);
      var at' :| Positions(b.items, NotNamed(g), at') && Selects(b.items, c.items, at');
      PositionsAmong(a.items, NotNamed(f), at, b.items, NotNamed(g), at',
                     NotNamed(f + g));
      assert Selects(a.items, c.items, Among(at, at'));
    }
  }

  lemma {:induction false} FieldsGoneTwice(a: Value, b: Value, c: Value, f: set<string>, g: set<string>)
    requires FieldsGone(a, b, f) && FieldsGone(b, c, g)
    ensures FieldsGone(a, c, f + g)
  {
    if a.Object? {
      forall k | k in a.members
        ensures if k == "schema" then FieldsGone(a.members[k], c.members[k], f + g)
                else MemberGone(k, a.members[k], c.members[k], f + g)
      {
        if k == "schema" {
          FieldsGoneTwice(a.members[k], b.members[k], c.members[k], f, g);
        } else {
          MemberGoneTwice(k, a.members[k], b.members[k], c.members[k], f, g);
        }
      }
    }
  }

  /** The experimental fields of a type. */
  ghost function FieldsOf(name: string, fields: seq<Field>): set<string>
  {
    set i | 0 <= i < |fields| && OfType(name, fields[i].typeName) :: fields[i].fieldName
  }

  /** At the root the title must be the type's own name. */
  function RootFieldsOf(title: string, fields: seq<Field>): set<string>
  {
    set i | 0 <= i < |fields| && fields[i].typeName == title :: fields[i].fieldName
  }

  lemma FieldsOfNext(name: string, fields: seq<Field>)
    requires fields != []
    ensures FieldsOf(name, fields) ==
      (if OfType(name, fields[0].typeName) then {fields[0].fieldName} else {}) + FieldsOf(name, fields[1..])
    ensures RootFieldsOf(name, fields) ==
      (if fields[0].typeName == name then {fields[0].fieldName} else {}) + RootFieldsOf(name, fields[1..])
  {
    assert forall i | 0 < i < |fields| :: fields[i] == fields[1..][i - 1];
    assert forall i | 0 <= i < |fields[1..]| :: fields[1..][i] == fields[i + 1];
    forall x ensures x in FieldsOf(name, fields[1..]) ==> x in FieldsOf(name, fields) {}
    forall x ensures x in RootFieldsOf(name, fields[1..]) ==> x in RootFieldsOf(name, fields) {}
  }

  lemma {:induction false} TypeFieldsGone(v: Value, name: string, fields: seq<Field>)
    ensures FieldsGone(v, RemoveFields(v, name, fields), FieldsOf(name, fields))
    decreases |fields|
  {
    if fields == [] {
      NoFieldGone(v);
      assert FieldsOf(name, fields) == {};
    } else {
      var now := if OfType(name, fields[0].typeName) then {fields[0].fieldName} else {};
      MatchesIff(name, fields[0].typeName);
      FieldsOfNext(name, fields);
      PropertyGone(v, fields[0].fieldName);
      NoFieldGone(v);
      var w := if Matches(name, fields[0].typeName) then RemoveProperty(v, fields[0].fieldName) else v;
      TypeFieldsGone(w, name, fields[1..]);
      FieldsGoneTwice(v, w, RemoveFields(v, name, fields), now, FieldsOf(name, fields[1..]));
    }
  }

  lemma {:induction false} RootFieldsGone(v: Value, title: string, fields: seq<Field>)
    ensures FieldsGone(v, FieldsInRoot(v, title, fields), RootFieldsOf(title, fields))
    decreases |fields|
  {
    if fields == [] {
      NoFieldGone(v);
      assert RootFieldsOf(title, fields) == {};
    } else {
      var now := if fields[0].typeName == title then {fields[0].fieldName} else {};
      FieldsOfNext(title, fields);
      PropertyGone(v, fields[0].fieldName);
      NoFieldGone(v);
      var w := if title == fields[0].typeName then RemoveProperty(v, fields[0].fieldName) else v;
      RootFieldsGone(w, title, fields[1..]);
      FieldsGoneTwice(v, w, FieldsInRoot(v, title, fields), now, RootFieldsOf(title, fields[1..]));
    }
  }

  /** Looks like a map of schemas rather than a schema: an object of objects, no name of which starts with
      a dollar sign or is a word that schemas are built with. */
  predicate LooksLikeSchemas(v: Value)
  {
    v.Object? && forall k | k in v.members ::
      v.members[k].Object? && !("$" <= k) && k !in {"type", "properties", "anyOf", "oneOf", "allOf"}
  }

  lemma NamespaceMapIff(v: Value)
    ensures IsNamespaceMap(v) <==> LooksLikeSchemas(v)
  {
  }

  /** In a map of schemas, and the maps of schemas in it, each schema has lost its type's fields. */
  ghost predicate DefsFieldsGone(a: Value, b: Value, fields: seq<Field>)
  {
    && a.Object? && b.Object? && b.members.Keys == a.members.Keys
    && forall k | k in a.members ::
         if LooksLikeSchemas(a.members[k]) then DefsFieldsGone(a.members[k], b.members[k], fields)
         else FieldsGone(a.members[k], b.members[k], FieldsOf(k, fields))
  }

  lemma {:induction false} FieldsGoneInDefs(defs: Value, fields: seq<Field>)
    requires defs.Object?
    ensures DefsFieldsGone(defs, FieldsInDefs(defs, fields), fields)
  {
    forall k | k in defs.members
      ensures if LooksLikeSchemas(defs.members[k])
              then DefsFieldsGone(defs.members[k], FieldsInDefs(defs, fields).members[k], fields)
              else FieldsGone(defs.members[k], FieldsInDefs(defs, fields).members[k], FieldsOf(k, fields))
    {
      NamespaceMapIff(defs.members[k]);
      if IsNamespaceMap(defs.members[k]) {
        FieldsGoneInDefs(defs.members[k], fields);
      } else {
        TypeFieldsGone(defs.members[k], k, fields);
      }
    }
  }

  // ----- types

  ghost predicate ExperimentalName(name: string, types: set<string>) { exists t :: t in types && OfType(name, t) }

  /** A map of schemas, and the maps of schemas in it, have lost exactly the experimental types. */
  ghost predicate TypesGone(a: Value, b: Value, types: set<string>)
  {
    && a.Object? && b.Object?
    && (forall k :: k in b.members <==> k in a.members && !ExperimentalName(k, types))
    && forall k | k in b.members ::
         if LooksLikeSchemas(a.members[k]) then TypesGone(a.members[k], b.members[k], types)
         else b.members[k] == a.members[k]
  }

  lemma GoneIff(e: Experimental, name: string)
    ensures Gone(e, name) <==> ExperimentalName(name, e.types)
  {
    forall t { MatchesIff(name, t); }
  }

  lemma {:induction false} TypesGoneFromDefs(defs: Value, e: Experimental)
    requires defs.Object?
    ensures TypesGone(defs, RemoveTypes(defs, e), e.types)
  {
    var b := RemoveTypes(defs, e);
    forall k { GoneIff(e, k); }
    forall k | k in b.members
      ensures if LooksLikeSchemas(defs.members[k]) then TypesGone(defs.members[k], b.members[k], e.types)
              else b.members[k] == defs.members[k]
    {
      NamespaceMapIff(defs.members[k]);
      if IsNamespaceMap(defs.members[k]) { TypesGoneFromDefs(defs.members[k], e); }
    }
  }

  // ----- the bundle

  /** `b` differs from `a` in its definitions at most. */
  predicate DefsApart(a: Value, b: Value)
  {
    a.Object? && b.Object? && b.members.Keys == a.members.Keys
    && forall k | k in a.members && k != "definitions" :: b.members[k] == a.members[k]
  }

  function TitleFields(v: Value, fields: seq<Field>): set<string>
  {
    if TextAt(v, [Member("title")]) then RootFieldsOf(At(v, [Member("title")]).value.s, fields) else {}
  }

  ghost predicate BundleFieldsGone(a: Value, b: Value, fields: seq<Field>)
  {
    exists root ::
      && FieldsGone(a, root, TitleFields(a, fields))
      && if Flatten.HasDefinitions(root)
         then DefsApart(root, b)
              && DefsFieldsGone(root.members["definitions"], b.members["definitions"], fields)
         else b == root
  }

  ghost predicate BundleTypesGone(a: Value, b: Value, types: set<string>)
  {
    if Flatten.HasDefinitions(a)
    then DefsApart(a, b) && TypesGone(a.members["definitions"], b.members["definitions"], types)
    else b == a
  }

  /** `b` is the bundle `a` without its experimental fields, then without its method variants, then without
      its experimental types. */
  ghost predicate WithoutExperimental(a: Value, b: Value, e: Experimental)
  {
    exists x, y ::
      && BundleFieldsGone(a, x, e.fields) && MethodsGone(x, y, set m | m in e.methods && m != "")
      && BundleTypesGone(y, b, e.types)
  }

  lemma TitleAt(v: Value)
    ensures TextAt(v, [Member("title")]) <==> v.Object? && "title" in v.members && v.members["title"].String?
    ensures TextAt(v, [Member("title")]) ==> At(v, [Member("title")]) == Some(v.members["title"])
  {
    AtMember(v, "title", []);
    assert [Member("title")] + [] == [Member("title")];
  }

  lemma RootFilteredGone(bundle: Value, e: Experimental)
    ensures FieldsGone(bundle, RootFiltered(bundle, e), TitleFields(bundle, e.fields))
  {
    TitleAt(bundle);
    if TextAt(bundle, [Member("title")]) {
      RootFieldsGone(bundle, bundle.members["title"].s, e.fields);
    } else {
      NoFieldGone(bundle);
    }
  }

  lemma FieldsFilteredGone(bundle: Value, e: Experimental)
    ensures BundleFieldsGone(bundle, FieldsFiltered(bundle, e), e.fields)
  {
    RootFilteredGone(bundle, e);
    var root := RootFiltered(bundle, e);
    if Flatten.HasDefinitions(root) { FieldsGoneInDefs(root.members["definitions"], e.fields); }
  }

  /** What pruning returns is the bundle without its experimental parts. */
  lemma {:induction false} PrunedIsWithout(bundle: Value, e: Experimental)
    ensures WithoutExperimental(bundle, Pruned(bundle, e), e)
  {
    var x, y := FieldsFiltered(bundle, e), MethodsPruned(bundle, e);
    FieldsFilteredGone(bundle, e);
    PruningRemovesVariants(x, e.Tags());
    assert e.Tags() == set m | m in e.methods && m != "";
    if Flatten.HasDefinitions(y) { TypesGoneFromDefs(y.members["definitions"], e); }
    assert BundleTypesGone(y, Pruned(bundle, e), e.types);
  }

  // ----- so, in the pruned bundle

  lemma {:induction false} RemovingTypesKeepsClean(defs: Value, e: Experimental)
    requires defs.Object? && Clean(defs, e.Tags())
    ensures Clean(RemoveTypes(defs, e), e.Tags())
  {
    var m, m' := defs.members, RemoveTypes(defs, e).members;
    CleanObject(m, e.Tags());
    forall k | k in m' ensures Clean(m'[k], e.Tags()) {
      if IsNamespaceMap(m[k]) { RemovingTypesKeepsClean(m[k], e); }
    }
    CleanObject(m', e.Tags());
  }

  /** Unless a variant was masked, no array anywhere in the pruned bundle holds an experimental one. */
  lemma {:induction false} PrunedBundleIsClean(bundle: Value, e: Experimental)
    requires Unmasked(FieldsFiltered(bundle, e), e.Tags())
    ensures Clean(Pruned(bundle, e), e.Tags())
  {
    var b := MethodsPruned(bundle, e);
    PrunedIsCleanIff(FieldsFiltered(bundle, e), e.Tags());
    if Flatten.HasDefinitions(b) {
      CleanObject(b.members, e.Tags());
      RemovingTypesKeepsClean(b.members["definitions"], e);
      CleanObject(Pruned(bundle, e).members, e.Tags());
    }
  }

  lemma {:induction false} PruneItemsTexts(items: seq<Value>, methods: set<string>, s: string)
    requires String(s) in PruneItems(items, methods)
    ensures String(s) in items
  {
    if items != [] && String(s) in PruneItems(items[1..], methods) { PruneItemsTexts(items[1..], methods, s); }
  }

  /** The schema has no such property and does not require it. */
  predicate Lacks(v: Value, field: string)
  {
    v.Object? ==>
      && ("properties" in v.members && v.members["properties"].Object? ==>
            field !in v.members["properties"].members)
      && ("required" in v.members && v.members["required"].Array? ==>
            String(field) !in v.members["required"].items)
  }

  lemma FieldsGoneLack(a: Value, b: Value, fields: set<string>, field: string)
    requires FieldsGone(a, b, fields) && field in fields
    ensures Lacks(b, field)
  {
    if a.Object? && "required" in a.members {
      var x, y := a.members["required"], b.members["required"];
      assert MemberGone("required", x, y, fields);
      if x.Array? {
        var at :| Positions(x.items, NotNamed(fields), at) && Selects(x.items, y.items, at);
        forall i | 0 <= i < |y.items| ensures y.items[i] != String(field) {
          assert at[i] in at && y.items[i] == x.items[at[i]];
        }
      }
    }
    if a.Object? && "properties" in a.members {
      assert MemberGone("properties", a.members["properties"], b.members["properties"], fields);
    }
  }

  lemma PruningKeepsLacking(v: Value, field: string, methods: set<string>)
    requires Lacks(v, field)
    ensures Lacks(PruneMethods(v, methods), field)
  {
    if v.Object? && "required" in v.members && v.members["required"].Array? {
      var items := v.members["required"].items;
      if String(field) in PruneItems(items, methods) { PruneItemsTexts(items, methods, field); }
      assert PruneMethods(v, methods).members["required"] == Array(PruneItems(items, methods));
    }
  }

  lemma FilteredDef(bundle: Value, e: Experimental, k: string)
    requires Flatten.HasDefinitions(bundle) && k in Flatten.Defs(bundle)
    requires !LooksLikeSchemas(Flatten.Defs(bundle)[k])
    ensures Flatten.HasDefinitions(FieldsFiltered(bundle, e)) && k in Flatten.Defs(FieldsFiltered(bundle, e))
    ensures Flatten.Defs(FieldsFiltered(bundle, e))[k] == RemoveFields(Flatten.Defs(bundle)[k], k, e.fields)
  {
    NamespaceMapIff(Flatten.Defs(bundle)[k]);
    if "title" in bundle.members && bundle.members["title"].String? {
      FieldsInRootLess(bundle, bundle.members["title"].s, e.fields);
    }
  }

  lemma PrunedDef(bundle: Value, e: Experimental, x: Value, k: string)
    requires x == FieldsFiltered(bundle, e) && Flatten.HasDefinitions(x) && k in Flatten.Defs(x)
    ensures Flatten.HasDefinitions(Pruned(bundle, e))
    ensures var w := PruneMethods(Flatten.Defs(x)[k], e.Tags());
      k in Flatten.Defs(Pruned(bundle, e)) ==>
        Flatten.Defs(Pruned(bundle, e))[k] == if IsNamespaceMap(w) then RemoveTypes(w, e) else w
  {
    var y := MethodsPruned(bundle, e);
    assert y.members["definitions"] == PruneMethods(x.members["definitions"], e.Tags());
  }

  /** A schema at the root of the definitions that is left has lost its experimental fields. */
  lemma {:induction false} PrunedLacksFields(bundle: Value, e: Experimental, k: string, field: string)
    requires Flatten.HasDefinitions(bundle) && Flatten.HasDefinitions(Pruned(bundle, e))
    requires k in Flatten.Defs(bundle) && k in Flatten.Defs(Pruned(bundle, e))
    requires !LooksLikeSchemas(Flatten.Defs(bundle)[k]) && field in FieldsOf(k, e.fields)
    ensures Lacks(Flatten.Defs(Pruned(bundle, e))[k], field)
  {
    FilteredDef(bundle, e, k);
    var x, v := FieldsFiltered(bundle, e), Flatten.Defs(bundle)[k];
    PrunedDef(bundle, e, x, k);
    TypeFieldsGone(v, k, e.fields);
    var w := RemoveFields(v, k, e.fields);
    FieldsGoneLack(v, w, FieldsOf(k, e.fields), field);
    PruningKeepsLacking(w, field, e.Tags());
  }
}
