/** `filter_experimental_schema`: drops experimental fields, method variants and types from a bundle. */
module Prune {
  import opened Json
  import opened Wrappers
  import Flatten

  type Members = map<string, Value>

  datatype Field = Field(typeName: string, fieldName: string)

  /** The registered fields, the methods, and the parameter and response types of the methods. */
  datatype Experimental = Experimental(fields: seq<Field>, methods: set<string>, types: set<string>)
  {
    /** Blank method names are left out. */
    function Tags(): set<string> { methods - {""} }
  }

  /** `is_namespace_map`. */
  predicate IsNamespaceMap(v: Value)
  {
    && v.Object?
    && (forall k | k in v.members :: k == "" || k[0] != '$')
    && (forall k | k in {"type", "properties", "anyOf", "oneOf", "allOf"} :: k !in v.members)
    && (forall k | k in v.members :: v.members[k].Object?)
  }

  /** `definition_matches_type`: the type itself, or a path that ends in it. */
  predicate Matches(name: string, typeName: string)
  {
    name == typeName || (|name| >= |typeName| + 2 && name[|name| - |typeName| - 2..] == "::" + typeName)
  }

  predicate Gone(e: Experimental, name: string) { exists t | t in e.types :: Matches(name, t) }

  // ----- fields

  function Unrequired(items: seq<Value>, field: string): seq<Value>
  {
    if items == [] then []
    else if items[0] == String(field) then Unrequired(items[1..], field)
    else [items[0]] + Unrequired(items[1..], field)
  }

  function RemoveProperty(v: Value, field: string): Value
  {
    if !v.Object? then v
    else
      Object(map k | k in v.members ::
        if k == "properties" && v.members[k].Object? then Object(v.members[k].members - {field})
        else if k == "required" && v.members[k].Array? then Array(Unrequired(v.members[k].items, field))
        else if k == "schema" then RemoveProperty(v.members[k], field)
        else v.members[k])
  }

  function RemoveFields(v: Value, name: string, fields: seq<Field>): Value
    decreases |fields|
  {
    if fields == [] then v
    else
      RemoveFields(if Matches(name, fields[0].typeName) then RemoveProperty(v, fields[0].fieldName) else v,
                   name, fields[1..])
  }

  /** `filter_experimental_fields_in_definitions_map`. */
  function FieldsInDefs(defs: Value, fields: seq<Field>): Value
    requires defs.Object?
  {
    Object(map k | k in defs.members ::
      if IsNamespaceMap(defs.members[k]) then FieldsInDefs(defs.members[k], fields)
      else RemoveFields(defs.members[k], k, fields))
  }

  /** `filter_experimental_fields_in_root`: here the title must be the type's own name. */
  function FieldsInRoot(v: Value, title: string, fields: seq<Field>): Value
    decreases |fields|
  {
    if fields == [] then v
    else FieldsInRoot(if title == fields[0].typeName then RemoveProperty(v, fields[0].fieldName) else v, title,
                      fields[1..])
  }

  // ----- methods

  /** `is_experimental_method_variant`. */
  predicate IsVariantOf(v: Value, methods: set<string>)
  {
    && v.Object? && "properties" in v.members && v.members["properties"].Object?
    && var props := v.members["properties"].members;
    && "method" in props && props["method"].Object?
    && var m := props["method"].members;
    if "const" in m && m["const"].String? then m["const"].s in methods
    else "enum" in m && m["enum"].Array? && |m["enum"].items| == 1 && m["enum"].items[0].String?
         && m["enum"].items[0].s in methods
  }

  function PruneMethods(v: Value, methods: set<string>): Value
    decreases v, 1
  {
    match v
    case Array(items) => Array(PruneItems(items, methods))
    case Object(m) => Object(map k | k in m :: PruneMethods(m[k], methods))
    case _ => v
  }

  function PruneItems(items: seq<Value>, methods: set<string>): seq<Value>
    decreases items, 0
  {
    if items == [] then []
    else if IsVariantOf(items[0], methods) then PruneItems(items[1..], methods)
    else [PruneMethods(items[0], methods)] + PruneItems(items[1..], methods)
  }

  // ----- types

  /** `remove_experimental_method_type_definitions_map`. */
  function RemoveTypes(defs: Value, e: Experimental): Value
    requires defs.Object?
  {
    Object(map k | k in defs.members && !Gone(e, k) ::
      if IsNamespaceMap(defs.members[k]) then RemoveTypes(defs.members[k], e) else defs.members[k])
  }

  // ----- the bundle

  function WithDefs(bundle: Value, defs: Value): Value
    requires bundle.Object?
  {
    Object(bundle.members["definitions" := defs])
  }

  function RootFiltered(bundle: Value, e: Experimental): Value
  {
    if bundle.Object? && "title" in bundle.members && bundle.members["title"].String?
    then FieldsInRoot(bundle, bundle.members["title"].s, e.fields) else bundle
  }

  function FieldsFiltered(bundle: Value, e: Experimental): Value
  {
    var b := RootFiltered(bundle, e);
    if Flatten.HasDefinitions(b) then WithDefs(b, FieldsInDefs(b.members["definitions"], e.fields)) else b
  }

  function MethodsPruned(bundle: Value, e: Experimental): Value { PruneMethods(FieldsFiltered(bundle, e), e.Tags()) }

  function Pruned(bundle: Value, e: Experimental): Value
  {
    var b := MethodsPruned(bundle, e);
    if Flatten.HasDefinitions(b) then WithDefs(b, RemoveTypes(b.members["definitions"], e)) else b
  }

  // ----- pruning leaves parts out

  /** `a` is what is left of `b`: the same kind of value, with no ref that `b` lacks. */
  predicate Less(a: Value, b: Value)
  {
    Refs(a) <= Refs(b) && (a.Object? <==> b.Object?) && (a.String? || b.String? ==> a == b)
  }

  /** And member by member. */
  predicate Inside(a: Value, b: Value)
  {
    && Less(a, b) && a.Object? && b.Object?
    && a.members.Keys <= b.members.Keys && forall k | k in a.members :: Less(a.members[k], b.members[k])
  }

  lemma ObjectLess(a: Members, b: Members)
    requires a.Keys <= b.Keys && forall k | k in a :: Less(a[k], b[k])
    ensures Inside(Object(a), Object(b))
  {
    forall r | r in Refs(Object(a)) ensures r in Refs(Object(b)) {
      if OwnRef(a) == Some(r) {
        assert OwnRef(b) == Some(r);
      } else {
        var k :| k in a && r in Refs(a[k]);
        assert r in Refs(b[k]);
      }
    }
  }

  lemma ItemsLess(a: seq<Value>, b: seq<Value>)
    requires forall v | v in a :: exists w :: w in b && Less(v, w)
    ensures Less(Array(a), Array(b))
  {
    forall r | r in Refs(Array(a)) ensures r in Refs(Array(b)) {
      var i :| 0 <= i < |a| && r in Refs(a[i]);
      assert a[i] in a;
      var w :| w in b && Less(a[i], w);
      var j :| 0 <= j < |b| && b[j] == w;
    }
  }

  lemma {:induction false} UnrequiredItems(items: seq<Value>, field: string)
    ensures forall v | v in Unrequired(items, field) :: v in items
  {
    if items != [] { UnrequiredItems(items[1..], field); }
  }

  lemma {:induction false} RemovePropertyLess(v: Value, field: string)
    ensures Less(RemoveProperty(v, field), v)
    ensures v.Object? ==> Inside(RemoveProperty(v, field), v) && RemoveProperty(v, field).members.Keys == v.members.Keys
  {
    if v.Object? {
      var m, m' := v.members, RemoveProperty(v, field).members;
      forall k | k in m' ensures Less(m'[k], m[k]) {
        if k == "properties" && m[k].Object? {
          ObjectLess(m[k].members - {field}, m[k].members);
        } else if k == "required" && m[k].Array? {
          UnrequiredItems(m[k].items, field);
          ItemsLess(Unrequired(m[k].items, field), m[k].items);
        } else if k == "schema" {
          RemovePropertyLess(m[k], field);
        }
      }
      ObjectLess(m', m);
    }
  }

  lemma {:induction false} RemoveFieldsLess(v: Value, name: string, fields: seq<Field>)
    ensures Less(RemoveFields(v, name, fields), v)
    ensures v.Object? ==>
      Inside(RemoveFields(v, name, fields), v) && RemoveFields(v, name, fields).members.Keys == v.members.Keys
    decreases |fields|
  {
    if fields != [] {
      RemovePropertyLess(v, fields[0].fieldName);
      RemoveFieldsLess(if Matches(name, fields[0].typeName) then RemoveProperty(v, fields[0].fieldName) else v,
                       name, fields[1..]);
    }
  }

  lemma {:induction false} FieldsInRootLess(v: Value, title: string, fields: seq<Field>)
    requires v.Object?
    ensures Inside(FieldsInRoot(v, title, fields), v) && FieldsInRoot(v, title, fields).members.Keys == v.members.Keys
    ensures "definitions" in v.members ==>
      FieldsInRoot(v, title, fields).members["definitions"] == v.members["definitions"]
    decreases |fields|
  {
    if fields != [] {
      RemovePropertyLess(v, fields[0].fieldName);
      FieldsInRootLess(if title == fields[0].typeName then RemoveProperty(v, fields[0].fieldName) else v, title,
                       fields[1..]);
    }
  }

  lemma {:induction false} FieldsInDefsLess(defs: Value, fields: seq<Field>)
    requires defs.Object?
    ensures Inside(FieldsInDefs(defs, fields), defs) && FieldsInDefs(defs, fields).members.Keys == defs.members.Keys
  {
    var m, m' := defs.members, FieldsInDefs(defs, fields).members;
    forall k | k in m' ensures Less(m'[k], m[k]) {
      if IsNamespaceMap(m[k]) { FieldsInDefsLess(m[k], fields); } else { RemoveFieldsLess(m[k], k, fields); }
    }
    ObjectLess(m', m);
  }

  lemma {:induction false} PruneMethodsLess(v: Value, methods: set<string>)
    ensures Less(PruneMethods(v, methods), v)
    ensures v.Object? ==> Inside(PruneMethods(v, methods), v) && PruneMethods(v, methods).members.Keys == v.members.Keys
    decreases v, 1
  {
    match v
    case Array(items) =>
      PruneItemsLess(items, methods);
      ItemsLess(PruneItems(items, methods), items);
    case Object(m) =>
      var m' := PruneMethods(v, methods).members;
      forall k | k in m' ensures Less(m'[k], m[k]) { PruneMethodsLess(m[k], methods); }
      ObjectLess(m', m);
    case _ =>
  }

  lemma {:induction false} PruneItemsLess(items: seq<Value>, methods: set<string>)
    ensures forall v | v in PruneItems(items, methods) :: exists w :: w in items && Less(v, w)
    decreases items, 0
  {
    if items != [] {
      PruneMethodsLess(items[0], methods);
      PruneItemsLess(items[1..], methods);
      forall v | v in PruneItems(items, methods) ensures exists w :: w in items && Less(v, w) {
        if v in PruneItems(items[1..], methods) {
          var w :| w in items[1..] && Less(v, w);
          assert w in items;
        } else {
          assert items[0] in items && Less(v, items[0]);
        }
      }
    }
  }

  lemma {:induction false} RemoveTypesLess(defs: Value, e: Experimental)
    requires defs.Object?
    ensures Inside(RemoveTypes(defs, e), defs)
  {
    var m, m' := defs.members, RemoveTypes(defs, e).members;
    forall k | k in m' ensures Less(m'[k], m[k]) {
      if IsNamespaceMap(m[k]) { RemoveTypesLess(m[k], e); }
    }
    ObjectLess(m', m);
  }

  lemma InsideAgain(a: Value, b: Value, c: Value)
    requires Inside(a, b) && Inside(b, c)
    ensures Inside(a, c)
  {
  }

  lemma AroundDefs(a: Value, b: Value)
    requires Inside(a, b)
    ensures Less(Object(a.members - {"definitions"}), Object(b.members - {"definitions"}))
  {
    ObjectLess(a.members - {"definitions"}, b.members - {"definitions"});
  }
}
