/** `strip_method_variants_from_json_schema`: drops the named method variants of a request or
    notification union and then every definition nothing visible refers to any more. */
module Strip {
  import opened Json
  import opened Text
  import opened Pointer
  import opened Closure
  import opened Sequences
  import opened Wrappers

  type Members = map<string, Value>

  /** Keys whose contents the root scan does not enter. */
  const HIDDEN := {"definitions", "$defs"}

  function NameOf(r: string): Option<string>
  {
    if DEFS <= r then Some(FirstSegment(r[|DEFS|..])) else None
  }

  /** `collect_local_definition_refs`. */
  function LocalNames(v: Value): set<string>
  {
    set r | r in Refs(v) && NameOf(r).Some? :: NameOf(r).value
  }

  function OwnName(m: Members): set<string>
  {
    if OwnRef(m).Some? && NameOf(OwnRef(m).value).Some? then {NameOf(OwnRef(m).value).value} else {}
  }

  /** `collect_local_definition_refs_excluding_maps`. */
  function VisibleNames(v: Value): set<string>
  {
    match v
    case Array(items) => set i, n | 0 <= i < |items| && n in VisibleNames(items[i]) :: n
    case Object(m) => OwnName(m) + set k, n | k in m && k !in HIDDEN && n in VisibleNames(m[k]) :: n
    case _ => {}
  }

  function Graph'(defs: Members): Graph { map n | n in defs :: LocalNames(defs[n]) }

  /** `string_literal`: a textual `const`, or else the first of an `enum`. */
  function StringLiteral(v: Value): Option<string>
  {
    if !v.Object? then None
    else if "const" in v.members && v.members["const"].String? then Some(v.members["const"].s)
    else if "enum" in v.members && v.members["enum"].Array? && v.members["enum"].items != []
            && v.members["enum"].items[0].String? then Some(v.members["enum"].items[0].s)
    else None
  }

  /** `is_method_variant_in_set`. */
  predicate IsMethodVariant(v: Value, methods: set<string>)
  {
    && v.Object? && "properties" in v.members && v.members["properties"].Object?
    && var props := v.members["properties"].members;
    "method" in props && var literal := StringLiteral(props["method"]);
    literal.Some? && literal.value in methods
  }

  function Retain(items: seq<Value>, methods: set<string>): seq<Value>
  {
    if items == [] then []
    else Retain(Init(items), methods) + if IsMethodVariant(Last(items), methods) then [] else [Last(items)]
  }

  predicate Applies(schema: Value)
  {
    schema.Object? && "oneOf" in schema.members && schema.members["oneOf"].Array?
  }

  function Trimmed(schema: Value, methods: set<string>): Value
    requires Applies(schema)
  {
    Object(schema.members["oneOf" := Array(Retain(schema.members["oneOf"].items, methods))])
  }

  function Definitions(schema: Value): Option<Members>
  {
    if schema.Object? && "definitions" in schema.members && schema.members["definitions"].Object?
    then Some(schema.members["definitions"].members) else None
  }

  /** Names reachable from outside the definitions map of the trimmed schema. */
  ghost function Reachable(schema: Value): set<string>
    requires Definitions(schema).Some?
  {
    Least(Graph'(Definitions(schema).value), VisibleNames(schema))
  }

  ghost function Stripped(schema: Value, methods: set<string>): Value
  {
    if !Applies(schema) then schema
    else
      var trimmed := Trimmed(schema, methods);
      var defs := Definitions(trimmed);
      if defs.None? then trimmed
      else
        var kept := map n | n in defs.value && n in Reachable(trimmed) :: defs.value[n];
        Object(trimmed.members["definitions" := Object(kept)])
  }

  method StripMethodVariants(schema: Value, methods: set<string>) returns (r: Value)
    ensures r == Stripped(schema, methods)
  {
    if !Applies(schema) { return schema; }
    var trimmed := Trimmed(schema, methods);
    if Definitions(trimmed).None? { return trimmed; }
    var defs := Definitions(trimmed).value;
    var reachable := ReachableLocalDefinitions(Graph'(defs), VisibleNames(trimmed));
    var kept := map n | n in defs && n in reachable :: defs[n];
    return Object(trimmed.members["definitions" := Object(kept)]);
  }

  /** A chain of references leads from one of the roots to `n`. */
  ghost predicate Referenced(defs: Members, roots: set<string>, n: string)
  {
    exists path :: Chain(Graph'(defs), roots, path, n)
  }

  /** A definition survives, unchanged, exactly when a chain of references leads to it from a variant
      that survived or from elsewhere in the root; everything else in the schema stays. */
  lemma {:induction false} KeepsExactlyTheReachable(schema: Value, methods: set<string>, n: string)
    requires Applies(schema) && Definitions(schema).Some?
    ensures var before := Definitions(schema).value;
      && Definitions(Stripped(schema, methods)).Some?
      && var after := Definitions(Stripped(schema, methods)).value;
      && (n in after <==> (n in before && Referenced(before, VisibleNames(Trimmed(schema, methods)), n)))
      && (n in after ==> after[n] == before[n])
    ensures Stripped(schema, methods).Object?
    ensures Stripped(schema, methods).members - {"definitions"} == Trimmed(schema, methods).members - {"definitions"}
  {
    var before := Definitions(schema).value;
    assert Definitions(Trimmed(schema, methods)) == Some(before);
    var trimmed := Trimmed(schema, methods);
    assert Reachable(trimmed) == Least(Graph'(before), VisibleNames(trimmed));
    LeastIsReachable(Graph'(before), VisibleNames(trimmed), n);
    assert n in Reachable(trimmed) <==> Referenced(before, VisibleNames(trimmed), n);
  }

  // ----- closedness

  /** No ref sits below a hidden key. */
  predicate NothingHidden(v: Value)
  {
    match v
    case Array(items) => forall i | 0 <= i < |items| :: NothingHidden(items[i])
    case Object(m) => forall k | k in m :: if k in HIDDEN then LocalNames(m[k]) == {} else NothingHidden(m[k])
    case _ => true
  }

  function Outside(schema: Value): Value
    requires schema.Object?
  {
    Object(schema.members - {"definitions"})
  }

  /** Every local reference names a definition of the schema. */
  predicate ClosedSchema(schema: Value)
    requires Definitions(schema).Some?
  {
    LocalNames(schema) <= Definitions(schema).value.Keys
  }

  lemma LocalNamesObject(m: Members)
    ensures LocalNames(Object(m)) == OwnName(m) + set k, n | k in m && n in LocalNames(m[k]) :: n
  {
    var all := OwnName(m) + set k, n | k in m && n in LocalNames(m[k]) :: n;
    forall n | n in LocalNames(Object(m)) ensures n in all {
      var r :| r in Refs(Object(m)) && NameOf(r) == Some(n);
      if OwnRef(m) != Some(r) {
        var k :| k in m && r in Refs(m[k]);
        assert n in LocalNames(m[k]);
      }
    }
    forall n | n in all ensures n in LocalNames(Object(m)) {
      if n in OwnName(m) {
        assert OwnRef(m).value in Refs(Object(m));
      } else {
        var k :| k in m && n in LocalNames(m[k]);
        var r :| r in Refs(m[k]) && NameOf(r) == Some(n);
        assert r in Refs(Object(m));
      }
    }
  }

  lemma LocalNamesArray(items: seq<Value>)
    ensures LocalNames(Array(items)) == set i, n | 0 <= i < |items| && n in LocalNames(items[i]) :: n
  {
    var all := set i, n | 0 <= i < |items| && n in LocalNames(items[i]) :: n;
    forall n | n in LocalNames(Array(items)) ensures n in all {
      var r :| r in Refs(Array(items)) && NameOf(r) == Some(n);
      var i :| 0 <= i < |items| && r in Refs(items[i]);
      assert n in LocalNames(items[i]);
    }
    forall n | n in all ensures n in LocalNames(Array(items)) {
      var i :| 0 <= i < |items| && n in LocalNames(items[i]);
      var r :| r in Refs(items[i]) && NameOf(r) == Some(n);
      assert r in Refs(Array(items));
    }
  }

  lemma {:induction false} AllVisible(v: Value)
    requires NothingHidden(v)
    ensures VisibleNames(v) == LocalNames(v)
  {
    match v
    case Array(items) =>
      LocalNamesArray(items);
      forall i | 0 <= i < |items| ensures VisibleNames(items[i]) == LocalNames(items[i]) { AllVisible(items[i]); }
    case Object(m) =>
      LocalNamesObject(m);
      forall k | k in m && k !in HIDDEN ensures VisibleNames(m[k]) == LocalNames(m[k]) { AllVisible(m[k]); }
    case _ =>
      assert Refs(v) == {};
  }

  /** The variants that stay are those whose method is not listed, in their order and as often as before. */
  lemma {:induction false} RetainExactly(items: seq<Value>, methods: set<string>, v: Value)
    ensures Subsequence(Retain(items, methods), items)
    ensures multiset(Retain(items, methods))[v] == if IsMethodVariant(v, methods) then 0 else multiset(items)[v]
  {
    if items != [] {
      RetainExactly(Init(items), methods, v);
      RetainNext(Init(items), items, methods, Last(items), v);
    }
  }

  lemma RetainNext(before: seq<Value>, items: seq<Value>, methods: set<string>, last: Value, v: Value)
    requires items != [] && before == Init(items) && last == Last(items) && Subsequence(Retain(before, methods), before)
    ensures Subsequence(Retain(items, methods), items)
    ensures multiset(items)[v] == multiset(before)[v] + if v == last then 1 else 0
    ensures multiset(Retain(items, methods))[v]
         == multiset(Retain(before, methods))[v] + if v == last && !IsMethodVariant(v, methods) then 1 else 0
  {
    var kept := Retain(before, methods);
    assert items == before + [last] && kept + [] == kept;
    SubsequenceExtend(kept, before, last);
  }

  lemma RetainedIsThere(items: seq<Value>, methods: set<string>, v: Value)
    requires v in Retain(items, methods)
    ensures v in items
  {
    RetainExactly(items, methods, v);
    assert v in multiset(Retain(items, methods));
  }

  lemma SplitNames(schema: Value)
    requires Definitions(schema).Some?
    ensures var defs := Definitions(schema).value;
      LocalNames(schema) == LocalNames(Outside(schema)) + LocalNames(Object(defs))
  {
    LocalNamesObject(schema.members);
    LocalNamesObject(schema.members - {"definitions"});
    assert schema == Object(schema.members);
    var outside := schema.members - {"definitions"};
    assert OwnName(outside) == OwnName(schema.members);
    assert schema.members["definitions"] == Object(Definitions(schema).value);
    forall n | n in LocalNames(schema) && n !in OwnName(schema.members)
      ensures n in LocalNames(Outside(schema)) + LocalNames(Object(Definitions(schema).value))
    {
      var k :| k in schema.members && n in LocalNames(schema.members[k]);
      if k != "definitions" { assert k in outside && outside[k] == schema.members[k]; }
    }
    forall n | n in LocalNames(Outside(schema)) && n !in OwnName(outside) ensures n in LocalNames(schema) {
      var k :| k in outside && n in LocalNames(outside[k]);
      assert schema.members[k] == outside[k];
    }
  }

  lemma VisibleOutside(schema: Value)
    requires schema.Object?
    ensures VisibleNames(schema) == VisibleNames(Outside(schema))
  {
    var m, outside := schema.members, schema.members - {"definitions"};
    assert OwnName(outside) == OwnName(m);
    assert forall k :: k in m && k !in HIDDEN <==> k in outside && k !in HIDDEN;
  }

  lemma TrimmedNames(schema: Value, methods: set<string>)
    requires Applies(schema) && Definitions(schema).Some?
    ensures LocalNames(Outside(Trimmed(schema, methods))) <= LocalNames(Outside(schema))
  {
    var m, t := schema.members - {"definitions"}, Trimmed(schema, methods).members - {"definitions"};
    var all, kept := m["oneOf"].items, t["oneOf"].items;
    LocalNamesObject(m);
    LocalNamesObject(t);
    LocalNamesArray(all);
    LocalNamesArray(kept);
    assert OwnName(m) == OwnName(t);
    forall n | n in LocalNames(t["oneOf"]) ensures n in LocalNames(m["oneOf"]) {
      var i :| 0 <= i < |kept| && n in LocalNames(kept[i]);
      RetainedIsThere(all, methods, kept[i]);
    }
    forall n | n in LocalNames(Object(t)) && n !in OwnName(t) ensures n in LocalNames(Object(m)) {
      var k :| k in t && n in LocalNames(t[k]);
      assert n in LocalNames(m[k]);
    }
  }

  lemma TrimmedHidesNothing(schema: Value, methods: set<string>)
    requires Applies(schema) && NothingHidden(Outside(schema))
    ensures NothingHidden(Outside(Trimmed(schema, methods)))
  {
    var m, t := schema.members - {"definitions"}, Trimmed(schema, methods).members - {"definitions"};
    var all, kept := m["oneOf"].items, t["oneOf"].items;
    assert NothingHidden(m["oneOf"]);
    forall i | 0 <= i < |kept| ensures NothingHidden(kept[i]) {
      RetainedIsThere(all, methods, kept[i]);
    }
  }

  lemma KeptNames(defs: Members, kept: Members, reachable: set<string>)
    requires Closed(Graph'(defs), reachable)
    requires kept == map n | n in defs && n in reachable :: defs[n]
    requires LocalNames(Object(defs)) <= defs.Keys && OwnRef(defs).None?
    ensures LocalNames(Object(kept)) <= kept.Keys
  {
    LocalNamesObject(defs);
    LocalNamesObject(kept);
    assert OwnName(kept) == {};
    forall n | n in LocalNames(Object(kept)) ensures n in kept {
      var k :| k in kept && n in LocalNames(kept[k]);
      assert n in Successors(Graph'(defs), k);
      assert n in LocalNames(defs[k]);
    }
  }

  /** Stripping a closed schema leaves it closed exactly when every name still referred to from
      outside the definitions is visible to the root scan, directly or through a definition. */
  lemma {:induction false} StrippedClosedIff(schema: Value, methods: set<string>)
    requires Applies(schema) && Definitions(schema).Some? && ClosedSchema(schema)
    requires OwnRef(Definitions(schema).value).None?
    ensures Definitions(Stripped(schema, methods)).Some? && Definitions(Trimmed(schema, methods)).Some?
    ensures var trimmed := Trimmed(schema, methods);
      ClosedSchema(Stripped(schema, methods)) <==>
        LocalNames(Outside(trimmed)) <= Reachable(trimmed)
  {
    var trimmed, result := Trimmed(schema, methods), Stripped(schema, methods);
    var defs := Definitions(schema).value;
    assert Definitions(trimmed) == Some(defs);
    var kept := Definitions(result).value;
    LeastIsLeast(Graph'(defs), VisibleNames(trimmed));
    SplitNames(schema);
    SplitNames(result);
    TrimmedNames(schema, methods);
    KeptNames(defs, kept, Reachable(trimmed));
    assert result.members - {"definitions"} == trimmed.members - {"definitions"};
  }

  /** A closed schema that hides no refs stays closed. */
  lemma {:induction false} StrippedClosed(schema: Value, methods: set<string>)
    requires Applies(schema) && Definitions(schema).Some? && ClosedSchema(schema)
    requires OwnRef(Definitions(schema).value).None? && NothingHidden(Outside(schema))
    ensures Definitions(Stripped(schema, methods)).Some? && ClosedSchema(Stripped(schema, methods))
  {
    var trimmed := Trimmed(schema, methods);
    StrippedClosedIff(schema, methods);
    TrimmedHidesNothing(schema, methods);
    AllVisible(Outside(trimmed));
    VisibleOutside(trimmed);
    assert Definitions(trimmed) == Definitions(schema);
    LeastIsLeast(Graph'(Definitions(schema).value), VisibleNames(trimmed));
  }

  /** A ref to `A` under `$defs` only, which the root scan does not enter. */
  function HiddenRef(): Value
  {
    Object(map["oneOf" := Array([]), "$defs" := DOLLAR_DEFS, "definitions" := Object(map["A" := Object(map[])])])
  }

  const DOLLAR_DEFS := Object(map["X" := Object(map[REF := String(DEFS + "A")])])

  lemma DollarDefsRefs()
    ensures Refs(DOLLAR_DEFS) == {DEFS + "A"}
  {
    var m := map[REF := String(DEFS + "A")];
    assert Refs(Object(m)) == {DEFS + "A"};
    assert DOLLAR_DEFS.members["X"] == Object(m);
  }

  lemma HiddenRefShape()
    ensures Applies(HiddenRef()) && Definitions(HiddenRef()) == Some(map["A" := Object(map[])])
    ensures Trimmed(HiddenRef(), {}) == HiddenRef() && VisibleNames(HiddenRef()) == {}
  {
    var m := HiddenRef().members;
    assert Retain([], {}) == [];
    assert m["oneOf" := Array([])] == m;
    assert OwnName(m) == {} && VisibleNames(m["oneOf"]) == {};
  }

  lemma HiddenRefRefs()
    ensures Refs(Outside(HiddenRef())) == {DEFS + "A"} && Refs(Object(map["A" := Object(map[])])) == {}
  {
    DollarDefsRefs();
    var outside := Outside(HiddenRef()).members;
    assert outside.Keys == {"oneOf", "$defs"} && outside["oneOf"] == Array([]) && outside["$defs"] == DOLLAR_DEFS;
  }

  lemma HiddenRefNames()
    ensures LocalNames(Outside(HiddenRef())) == {"A"}
    ensures Definitions(HiddenRef()).Some? && ClosedSchema(HiddenRef())
  {
    HiddenRefShape();
    HiddenRefRefs();
    assert (DEFS + "A")[|DEFS|..] == "A";
    FirstSegmentWhole("A");
    assert NameOf(DEFS + "A") == Some("A");
    SplitNames(HiddenRef());
  }

  /** The condition is needed: this schema is closed, and stripping it takes away a definition it still
      refers to. */
  lemma {:induction false} HiddenRefDangles()
    ensures var schema := HiddenRef();
      && Applies(schema) && Definitions(schema).Some? && ClosedSchema(schema) && OwnRef(Definitions(schema).value).None?
      && Definitions(Stripped(schema, {})).Some? && !ClosedSchema(Stripped(schema, {}))
  {
    HiddenRefShape();
    HiddenRefNames();
    StrippedClosedIff(HiddenRef(), {});
    var g := Graph'(Definitions(HiddenRef()).value);
    LeastIsLeast(g, {});
    assert Closed(g, {});
  }
}
