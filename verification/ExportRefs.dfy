/** Where the refs of a merged bundle lead when each schema is closed on its own, as the schema
    generator emits them. */
module ExportRefs {
  import opened Json
  import opened Pointer
  import opened Bundle
  import opened FlattenProofs
  import opened Wrappers
  import Flatten
  import JsonPrinter
  import Text

  type Definitions = map<string, Value>

  function BundleOf(defs: Definitions): Value
  {
    Object(map[
      "$schema" := String("http://json-schema.org/draft-07/schema#"),
      "title" := String("CodexAppServerProtocol"),
      "type" := String("object"),
      "definitions" := Object(defs)])
  }

  /** The bundle says what it is and holds the definitions, and nothing else. */
  lemma BundleSays(defs: Definitions)
    ensures var m := BundleOf(defs).members;
      && m.Keys == {"$schema", "title", "type", "definitions"} && m["definitions"] == Object(defs)
      && m["$schema"] == String("http://json-schema.org/draft-07/schema#")
      && m["title"] == String("CodexAppServerProtocol") && m["type"] == String("object")
  {
  }

  // ----- schemas as they are emitted

  predicate DefName(n: string) { PlainName(n) && n != "v2" && n != REF }

  /** A ref to a definition that bundling carries along with the schema. */
  predicate OwnDef(v: Value, r: string)
  {
    DEFS <= r && r[|DEFS|..] in CarriedNames(v)
  }

  /** Closed on its own. */
  predicate SelfContained(s: Schema)
  {
    && s.name != "v2" && s.name != REF
    && (forall n | n in DefsOf(s.value) :: DefName(n))
    && (forall r | r in Refs(s.value) :: Foreign(r) || OwnDef(s.value, r))
  }

  predicate InV2(s: Schema)
  {
    s.namespace == Some("v2") && s.name !in IGNORED && s.name !in Flatten.SHARED && DollarDefs(s.value) == {}
  }

  predicate Exportable(schemas: seq<Schema>)
  {
    && (forall i | 0 <= i < |schemas| && schemas[i].name !in IGNORED :: SelfContained(schemas[i]))
    && (forall i | 0 <= i < |schemas| && schemas[i].namespace.Some? :: InV2(schemas[i]))
    && (exists i :: 0 <= i < |schemas| && schemas[i].namespace.Some?)
  }

  /** Annotating the definitions that are stored adds no refs, and at the root loses none. */
  predicate KeepsRefs(s: Schema, types: map<string, string>, annotate: (Value, string) -> Value)
  {
    match s.namespace
    case Some(ns) =>
      var defs := DefsOf(Namespaced(s.value, ns));
      forall n | n in CarriedNames(Namespaced(s.value, ns)) :: Refs(annotate(defs[n], n)) <= Refs(defs[n])
    case None =>
      var defs := DefsOf(Known(s.value, types));
      forall n | n in RootDefs(s, types) :: Refs(annotate(defs[n], n)) == Refs(defs[n])
  }

  predicate AllKeepRefs(schemas: seq<Schema>, annotate: (Value, string) -> Value)
  {
    forall i | 0 <= i < |schemas| && schemas[i].name !in IGNORED ::
      KeepsRefs(schemas[i], NamespacedTypes(schemas), annotate)
  }

  /** A ref to a name that counts as a namespaced type only for the digits it ends in. */
  predicate Numbered(types: map<string, string>, r: string)
  {
    DEFS <= r && r[|DEFS|..] !in types && NamespaceFor(r[|DEFS|..], types).Some?
  }

  predicate Writes(s: Schema, types: map<string, string>, k: string)
  {
    s.namespace.None? && s.name !in IGNORED && (k == s.name || k in RootDefs(s, types))
  }

  predicate LastWriter(schemas: seq<Schema>, types: map<string, string>, i: nat, k: string)
  {
    i < |schemas| && Writes(schemas[i], types, k) && forall j | i < j < |schemas| :: !Writes(schemas[j], types, k)
  }

  /** What a root schema writes under `k`, before any rewrite. */
  function Part(s: Schema, k: string): Value
  {
    if k == s.name then Without(s.value) else if k in DefsOf(s.value) then DefsOf(s.value)[k] else Null
  }

  /** Nothing that ends up at the root refers to a numbered name. */
  ghost predicate Unnumbered(schemas: seq<Schema>)
  {
    var types := NamespacedTypes(schemas);
    forall i: nat, k, r | LastWriter(schemas, types, i, k) && r in Refs(Part(schemas[i], k)) :: !Numbered(types, r)
  }

  /** What `BuildSchemaBundle` returns for these schemas. */
  ghost predicate IsBundle(schemas: seq<Schema>, annotate: (Value, string) -> Value, defs: Definitions)
  {
    && Holds(defs, Namespaces(schemas), Contributions(schemas, annotate))
    && defs - Namespaces(schemas) == RootDefinitions(schemas, NamespacedTypes(schemas), annotate)
  }

  ghost predicate Built(schemas: seq<Schema>, annotate: (Value, string) -> Value, defs: Definitions)
  {
    Exportable(schemas) && AllKeepRefs(schemas, annotate) && IsBundle(schemas, annotate, defs)
  }

  lemma OneNamespace(schemas: seq<Schema>)
    requires Exportable(schemas)
    ensures Namespaces(schemas) == {"v2"}
    ensures forall n | n in NamespacedTypes(schemas) :: NamespacedTypes(schemas)[n] == "v2"
  {
    var i :| 0 <= i < |schemas| && schemas[i].namespace.Some?;
    assert InV2(schemas[i]);
    assert schemas[i].namespace.value in Namespaces(schemas);
    forall n | n in NamespacedTypes(schemas) ensures NamespacedTypes(schemas)[n] == "v2" {
      var k := TypesOwner(schemas, n);
      assert InV2(schemas[k]);
    }
  }

  // ----- the v2 namespace

  predicate Carryable(n: string) { PlainName(n) && n !in IGNORED && n !in SPECIAL }

  /** Every name a namespaced schema owns has a schema in v2. */
  lemma OwnedInV2(schemas: seq<Schema>, annotate: (Value, string) -> Value, defs: Definitions, n: string)
    requires Exportable(schemas) && IsBundle(schemas, annotate, defs)
    requires n in NamespacedTypes(schemas) && Carryable(n)
    ensures "v2" in defs && defs["v2"].Object? && n in defs["v2"].members
  {
    OneNamespace(schemas);
    var i := TypesOwner(schemas, n);
    assert InV2(schemas[i]);
    var c := OwnedIsContributed(schemas, annotate, i, n);
    assert InNamespace(defs, c);
  }

  lemma V2Exists(schemas: seq<Schema>, annotate: (Value, string) -> Value, defs: Definitions)
    requires Exportable(schemas) && IsBundle(schemas, annotate, defs)
    ensures "v2" in defs && defs["v2"].Object?
  {
    var i :| 0 <= i < |schemas| && schemas[i].namespace.Some?;
    assert InV2(schemas[i]);
    var c := OwnedIsContributed(schemas, annotate, i, schemas[i].name);
    assert InNamespace(defs, c);
  }

  lemma Shape(defs: Definitions)
    requires "v2" in defs && defs["v2"].Object?
    ensures Flatten.HasShape(BundleOf(defs))
    ensures Flatten.Defs(BundleOf(defs)) == defs && Flatten.V2Defs(BundleOf(defs)) == defs["v2"].members
  {
  }

  lemma DefIsOwned(schemas: seq<Schema>, i: nat, n: string)
    requires i < |schemas| && schemas[i].namespace.Some?
    requires n == schemas[i].name || n in DefsOf(schemas[i].value)
    ensures n in NamespacedTypes(schemas)
    decreases |schemas|
  {
    if i < |schemas| - 1 {
      DefIsOwned(schemas[..|schemas| - 1], i, n);
    }
  }

  lemma RetargetedToV2(n: string)
    requires '/' !in n
    ensures ToNamespace("v2", DEFS + n) == V2 + n && ToNamespace("v2", V2 + n) == V2 + n
  {
    assert (DEFS + n)[|DEFS|..] == n;
    assert (V2 + n)[|DEFS|..] == "v2/" + n;
    assert |n| > 2 ==> n[2] in n;
    assert DEFS + ("v2" + "/" + n) == V2 + n;
  }

  /** After its rewrite a namespaced schema refers into v2 only, to names it owns. */
  lemma NamespacedRef(s: Schema, r: string)
    requires SelfContained(s) && r in Refs(Namespaced(s.value, "v2"))
    ensures Foreign(r) || (V2 <= r && r[|V2|..] in CarriedNames(s.value) && r == ToNamespace("v2", r))
  {
    var f := x => ToNamespace("v2", x);
    MapRefsRefs(s.value, f);
    var x :| x in Refs(s.value) && f(x) == r;
    if !Foreign(x) {
      var n := x[|DEFS|..];
      assert x == DEFS + n;
      RetargetedToV2(n);
      assert (V2 + n)[|V2|..] == n;
    }
  }

  lemma StoredRef(s: Schema, types: map<string, string>, annotate: (Value, string) -> Value, n: string, r: string)
    requires SelfContained(s) && InV2(s) && KeepsRefs(s, types, annotate)
    requires n in CarriedNames(Namespaced(s.value, "v2")) && r in Refs(DefValue(annotate, "v2", s.value, n))
    ensures r in Refs(Namespaced(s.value, "v2"))
  {
    StoredAfterOneRewrite(annotate, "v2", s.value, n);
    DefRefs(Namespaced(s.value, "v2"), n, r);
  }

  lemma WithoutRefs(v: Value)
    ensures Refs(Without(v)) <= Refs(v)
  {
  }

  /** Every schema in v2 comes from a namespaced one: itself, or one of its definitions. */
  lemma V2Origin(schemas: seq<Schema>, annotate: (Value, string) -> Value, defs: Definitions, k: string)
    returns (i: nat)
    requires Exportable(schemas) && IsBundle(schemas, annotate, defs)
    requires "v2" in defs && defs["v2"].Object? && k in defs["v2"].members
    ensures i < |schemas| && SelfContained(schemas[i]) && InV2(schemas[i])
    ensures Contribution("v2", k, defs["v2"].members[k]) in Of(schemas[i], annotate)
  {
    var c := Contribution("v2", k, defs["v2"].members[k]);
    OneNamespace(schemas);
    assert InNamespace(defs, c);
    i :| 0 <= i < |schemas| && c in Of(schemas[i], annotate);
    assert InV2(schemas[i]);
  }

  lemma ContributedName(schemas: seq<Schema>, annotate: (Value, string) -> Value, i: nat, c: Contribution)
    requires i < |schemas| && SelfContained(schemas[i]) && InV2(schemas[i]) && c in Of(schemas[i], annotate)
    ensures c.name in NamespacedTypes(schemas) && c.name != REF && c.name !in Flatten.SHARED
  {
    RewrittenDefs(schemas[i].value, r => ToNamespace("v2", r));
    DefIsOwned(schemas, i, c.name);
  }

  lemma ContributedRef(s: Schema, types: map<string, string>, annotate: (Value, string) -> Value, c: Contribution,
                       r: string)
    requires SelfContained(s) && InV2(s) && KeepsRefs(s, types, annotate) && c in Of(s, annotate) && r in Refs(c.value)
    ensures r in Refs(Namespaced(s.value, "v2"))
  {
    if c in OfDefs(s, "v2", annotate, CarriedNames(Namespaced(s.value, "v2"))) {
      StoredRef(s, types, annotate, c.name, r);
    } else {
      WithoutRefs(Namespaced(s.value, "v2"));
    }
  }

  lemma V2Closed(schemas: seq<Schema>, annotate: (Value, string) -> Value, defs: Definitions, k: string, r: string)
    requires Built(schemas, annotate, defs)
    requires "v2" in defs && defs["v2"].Object? && k in defs["v2"].members && r in Refs(defs["v2"].members[k])
    ensures Foreign(r) || V2Ref(r, defs["v2"].members)
  {
    var i := V2Origin(schemas, annotate, defs, k);
    ContributedRef(schemas[i], NamespacedTypes(schemas), annotate, Contribution("v2", k, defs["v2"].members[k]), r);
    NamespacedRef(schemas[i], r);
    if !Foreign(r) {
      var n := r[|V2|..];
      DefIsOwned(schemas, i, n);
      OwnedInV2(schemas, annotate, defs, n);
    }
  }

  lemma V2Name(schemas: seq<Schema>, annotate: (Value, string) -> Value, defs: Definitions, k: string)
    requires Exportable(schemas) && IsBundle(schemas, annotate, defs)
    requires "v2" in defs && defs["v2"].Object? && k in defs["v2"].members
    ensures k in NamespacedTypes(schemas) && k != REF && k !in Flatten.SHARED
  {
    var i := V2Origin(schemas, annotate, defs, k);
    ContributedName(schemas, annotate, i, Contribution("v2", k, defs["v2"].members[k]));
  }

  // ----- the root

  /** A ref in what a root schema leaves at the root: to nothing local, to a definition left beside it,
      or into v2. */
  predicate Lands(s: Schema, types: map<string, string>, r: string)
  {
    || Foreign(r)
    || (DEFS <= r && DefName(r[|DEFS|..]) && r[|DEFS|..] !in types && r[|DEFS|..] in RootDefs(s, types))
    || (V2 <= r && Carryable(r[|V2|..]))
  }

  lemma StaysAtRoot(s: Schema, types: map<string, string>, n: string)
    requires n in CarriedNames(s.value) && NamespaceFor(n, types).None?
    ensures n in RootDefs(s, types)
  {
    RewrittenDefs(s.value, r => ToKnown(types, r));
    assert n in DefsOf(s.value).Keys;
  }

  /** A ref of a root schema to its own definition stays if that stays, and else goes to v2. */
  lemma OwnTarget(s: Schema, types: map<string, string>, n: string)
    requires n in CarriedNames(s.value) && PlainName(n)
    requires forall m | m in types :: types[m] == "v2"
    ensures ToKnown(types, DEFS + n) == if NamespaceFor(n, types).Some? then V2 + n else DEFS + n
    ensures NamespaceFor(n, types).None? ==> n in RootDefs(s, types)
  {
    assert (DEFS + n)[|DEFS|..] == n;
    Text.FirstSegmentWhole(n);
    if NamespaceFor(n, types).Some? {
      assert DEFS + "v2" + "/" + n == V2 + n;
    } else {
      StaysAtRoot(s, types, n);
    }
  }

  lemma RewrittenLands(s: Schema, types: map<string, string>, x: string)
    requires SelfContained(s) && x in Refs(s.value)
    requires forall m | m in types :: types[m] == "v2"
    ensures Lands(s, types, ToKnown(types, x))
    ensures ToKnown(types, x) == if Foreign(x) || NamespaceFor(x[|DEFS|..], types).None? then x else V2 + x[|DEFS|..]
  {
    if !Foreign(x) {
      var n := x[|DEFS|..];
      assert x == DEFS + n;
      OwnTarget(s, types, n);
      assert (V2 + n)[|V2|..] == n;
    }
  }

  lemma NotBelowV2(name: string, rest: string)
    requires DefName(name)
    ensures !(DEFS + name + "/" <= V2 + rest)
  {
    if DEFS + name + "/" <= V2 + rest {
      assert (DEFS + name + "/")[|DEFS|..] == name + "/" && (V2 + rest)[|DEFS|..] == "v2/" + rest;
      var t := "v2/" + rest;
      var rest' := t[|name| + 1..];
      assert t == "v2" + ("/" + rest) && t == name + ("/" + rest');
      FirstSegmentAt("v2", rest);
      FirstSegmentAt(name, rest');
    }
  }

  lemma NotBelowRoot(name: string, n: string)
    requires '/' !in n
    ensures !(DEFS + name + "/" <= DEFS + n)
  {
    assert |n| > |name| ==> (DEFS + n)[|DEFS + name|] == n[|name|] && n[|name|] in n;
  }

  /** The forced retargeting of moved definitions finds nothing left to do. */
  lemma ForcedFixes(s: Schema, types: map<string, string>, ns: string, name: string, r: string)
    requires Lands(s, types, r) && DefName(name) && name !in RootDefs(s, types)
    ensures ToNamed(ns, name, r) == r
  {
    if V2 <= r {
      assert r == V2 + r[|V2|..] && r[|DEFS|..][2] == '/';
      NotBelowV2(name, r[|V2|..]);
    } else if DEFS <= r {
      assert r == DEFS + r[|DEFS|..];
      NotBelowRoot(name, r[|DEFS|..]);
    }
  }

  lemma {:induction false} ForceAllFixes(v: Value, names: seq<string>, types: map<string, string>)
    requires forall ns, n, r | n in names && r in Refs(v) :: ToNamed(ns, n, r) == r
    ensures ForceAll(v, names, types) == v
    decreases |names|
  {
    if names != [] {
      var ns := NamespaceFor(names[0], types);
      if ns.Some? { MapRefsFixed(v, r => ToNamed(ns.value, names[0], r)); }
      ForceAllFixes(v, names[1..], types);
    }
  }

  /** So what stays of a root schema once its definitions are taken out is stored as it is. */
  lemma StoredAtRoot(s: Schema, types: map<string, string>)
    requires SelfContained(s)
    requires forall m | m in types :: types[m] == "v2"
    ensures var value := MapRefs(s.value, x => ToKnown(types, x));
      ForceAll(Without(value), JsonPrinter.SortedKeys(CarriedNames(value) - RootDefs(s, types)), types)
        == Without(value)
  {
    var f := x => ToKnown(types, x);
    var value := MapRefs(s.value, f);
    RewrittenDefs(s.value, f);
    MapRefsRefs(s.value, f);
    WithoutRefs(value);
    var moved := CarriedNames(value) - RootDefs(s, types);
    var names := JsonPrinter.SortedKeys(moved);
    forall ns, n, r | n in names && r in Refs(Without(value)) ensures ToNamed(ns, n, r) == r {
      assert n in moved;
      assert n in CarriedNames(value);
      assert n in DefsOf(value).Keys;
      var x :| x in Refs(s.value) && f(x) == r;
      RewrittenLands(s, types, x);
      ForcedFixes(s, types, ns, n, r);
    }
    ForceAllFixes(Without(value), names, types);
  }

  lemma WithoutRewritten(v: Value, f: string -> string)
    ensures Without(MapRefs(v, f)) == MapRefs(Without(v), f)
  {
    assert REF != "definitions";
  }

  lemma WritesAdded(s: Schema, types: map<string, string>, annotate: (Value, string) -> Value, k: string)
    requires s.namespace.None? && s.name !in IGNORED
    ensures k in RootAdded(s, types, annotate) <==> Writes(s, types, k)
  {
  }

  /** The refs of what is stored are those of the part it comes from, rewritten. */
  lemma StoredRefs(s: Schema, types: map<string, string>, annotate: (Value, string) -> Value, k: string)
    requires SelfContained(s) && Writes(s, types, k) && KeepsRefs(s, types, annotate)
    requires forall m | m in types :: types[m] == "v2"
    ensures k in RootAdded(s, types, annotate)
    ensures Refs(RootAdded(s, types, annotate)[k]) == set x | x in Refs(Part(s, k)) :: ToKnown(types, x)
  {
    var f := x => ToKnown(types, x);
    MapRefsRefs(Part(s, k), f);
    if k == s.name {
      StoredAtRoot(s, types);
      WithoutRewritten(s.value, f);
    } else {
      RewrittenDefs(s.value, f);
      assert k in DefsOf(s.value).Keys;
    }
  }

  lemma PartRefs(s: Schema, k: string)
    ensures Refs(Part(s, k)) <= Refs(s.value)
  {
    if k == s.name {
      WithoutRefs(s.value);
    } else {
      forall r | r in Refs(Part(s, k)) ensures r in Refs(s.value) { DefRefs(s.value, k, r); }
    }
  }

  lemma {:induction false} RootOrigin(schemas: seq<Schema>, types: map<string, string>,
                                      annotate: (Value, string) -> Value, k: string)
    returns (i: nat)
    requires k in RootDefinitions(schemas, types, annotate)
    ensures LastWriter(schemas, types, i, k)
    decreases |schemas|
  {
    i := |schemas| - 1;
    if !Writes(schemas[i], types, k) {
      NotWritten(schemas, types, annotate, k);
      i := RootOrigin(schemas[..|schemas| - 1], types, annotate, k);
      StillLast(schemas, types, i, k);
    }
  }

  lemma StillLast(schemas: seq<Schema>, types: map<string, string>, i: nat, k: string)
    requires schemas != [] && !Writes(schemas[|schemas| - 1], types, k)
    requires LastWriter(schemas[..|schemas| - 1], types, i, k)
    ensures LastWriter(schemas, types, i, k)
  {
    forall j | i < j < |schemas| ensures !Writes(schemas[j], types, k) {
      if j < |schemas| - 1 { assert schemas[j] == schemas[..|schemas| - 1][j]; }
    }
  }

  lemma NotWritten(schemas: seq<Schema>, types: map<string, string>, annotate: (Value, string) -> Value, k: string)
    requires schemas != [] && !Writes(schemas[|schemas| - 1], types, k)
    ensures k in RootDefinitions(schemas, types, annotate) <==>
      k in RootDefinitions(schemas[..|schemas| - 1], types, annotate)
  {
    var s := schemas[|schemas| - 1];
    if s.namespace.None? && s.name !in IGNORED { WritesAdded(s, types, annotate, k); }
  }

  lemma {:induction false} RootKept(schemas: seq<Schema>, types: map<string, string>,
                                    annotate: (Value, string) -> Value, i: nat, k: string)
    requires i < |schemas| && Writes(schemas[i], types, k)
    ensures k in RootDefinitions(schemas, types, annotate)
    decreases |schemas|
  {
    if i < |schemas| - 1 {
      RootKept(schemas[..|schemas| - 1], types, annotate, i, k);
    }
  }

  /** What the last writer of a name left under it is what the root holds. */
  lemma {:induction false} LastStored(schemas: seq<Schema>, types: map<string, string>,
                                      annotate: (Value, string) -> Value, i: nat, k: string)
    requires LastWriter(schemas, types, i, k)
    ensures k in RootAdded(schemas[i], types, annotate) && k in RootDefinitions(schemas, types, annotate)
    ensures RootDefinitions(schemas, types, annotate)[k] == RootAdded(schemas[i], types, annotate)[k]
    decreases |schemas|
  {
    if i < |schemas| - 1 {
      assert !Writes(schemas[|schemas| - 1], types, k);
      LastStored(schemas[..|schemas| - 1], types, annotate, i, k);
    }
  }

  lemma RootName(s: Schema, types: map<string, string>, k: string)
    requires SelfContained(s) && Writes(s, types, k)
    ensures k != "v2" && k != REF
  {
    if k != s.name {
      RewrittenDefs(s.value, r => ToKnown(types, r));
      assert k in DefsOf(s.value).Keys;
    }
  }

  /** The schema a root definition comes from, and the refs it has. */
  lemma RootSource(schemas: seq<Schema>, annotate: (Value, string) -> Value, defs: Definitions, k: string)
    returns (i: nat)
    requires Built(schemas, annotate, defs) && k in defs && k != "v2"
    ensures LastWriter(schemas, NamespacedTypes(schemas), i, k) && SelfContained(schemas[i])
    ensures Refs(defs[k]) == set x | x in Refs(Part(schemas[i], k)) :: ToKnown(NamespacedTypes(schemas), x)
  {
    var types := NamespacedTypes(schemas);
    OneNamespace(schemas);
    assert k in defs - {"v2"};
    i := RootOrigin(schemas, types, annotate, k);
    LastStored(schemas, types, annotate, i, k);
    assert defs[k] == (defs - {"v2"})[k];
    assert SelfContained(schemas[i]);
    StoredRefs(schemas[i], types, annotate, k);
  }

  lemma RootHasIt(schemas: seq<Schema>, annotate: (Value, string) -> Value, defs: Definitions, i: nat, n: string)
    requires Exportable(schemas) && IsBundle(schemas, annotate, defs)
    requires i < |schemas| && Writes(schemas[i], NamespacedTypes(schemas), n)
    ensures n in defs
  {
    RootKept(schemas, NamespacedTypes(schemas), annotate, i, n);
    assert n in defs - Namespaces(schemas);
  }

  /** Where a ref of a root definition comes from and leads: nowhere local, to another name at the root
      that no namespaced schema owns, or to a schema of v2; but if it named a numbered one, into v2 under
      that name. */
  lemma RootTarget(schemas: seq<Schema>, annotate: (Value, string) -> Value, defs: Definitions, k: string, r: string)
    returns (i: nat, x: string)
    requires Built(schemas, annotate, defs)
    requires "v2" in defs && defs["v2"].Object? && k in defs && k != "v2" && r in Refs(defs[k])
    ensures LastWriter(schemas, NamespacedTypes(schemas), i, k) && x in Refs(Part(schemas[i], k))
    ensures if Numbered(NamespacedTypes(schemas), x) then r == V2 + x[|DEFS|..] && PlainName(x[|DEFS|..])
      else Foreign(r) || V2Ref(r, defs["v2"].members) || (RootRef(r, defs) && r[|DEFS|..] !in NamespacedTypes(schemas))
  {
    var types := NamespacedTypes(schemas);
    OneNamespace(schemas);
    i := RootSource(schemas, annotate, defs, k);
    x :| x in Refs(Part(schemas[i], k)) && ToKnown(types, x) == r;
    PartRefs(schemas[i], k);
    RewrittenLands(schemas[i], types, x);
    if Foreign(x) {
    } else if NamespaceFor(x[|DEFS|..], types).None? {
      OwnTarget(schemas[i], types, x[|DEFS|..]);
      RootHasIt(schemas, annotate, defs, i, x[|DEFS|..]);
    } else if !Numbered(types, x) {
      OwnedInV2(schemas, annotate, defs, x[|DEFS|..]);
      assert r[|V2|..] == x[|DEFS|..];
    }
  }

  /** A numbered ref is pointed into v2, at nothing. */
  lemma NumberedTarget(schemas: seq<Schema>, annotate: (Value, string) -> Value, defs: Definitions, i: nat, k: string,
                       x: string)
    requires Built(schemas, annotate, defs)
    requires LastWriter(schemas, NamespacedTypes(schemas), i, k) && x in Refs(Part(schemas[i], k))
    requires "v2" in defs && defs["v2"].Object? && Numbered(NamespacedTypes(schemas), x)
    ensures k in defs && k != "v2" && PlainName(x[|DEFS|..])
    ensures var r := V2 + x[|DEFS|..];
      r in Refs(defs[k]) && !Foreign(r) && !V2Ref(r, defs["v2"].members) && !RootRef(r, defs)
  {
    var types := NamespacedTypes(schemas);
    OneNamespace(schemas);
    assert SelfContained(schemas[i]);
    RootName(schemas[i], types, k);
    RootHasIt(schemas, annotate, defs, i, k);
    LastStored(schemas, types, annotate, i, k);
    assert defs[k] == (defs - {"v2"})[k];
    StoredRefs(schemas[i], types, annotate, k);
    PartRefs(schemas[i], k);
    RewrittenLands(schemas[i], types, x);
    var n := x[|DEFS|..];
    assert (V2 + n)[|V2|..] == n && (V2 + n)[|DEFS|..][2] == '/';
    if n in defs["v2"].members { V2Name(schemas, annotate, defs, n); }
  }
}
