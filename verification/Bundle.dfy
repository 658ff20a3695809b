/** `build_schema_bundle`: merges per-type schemas into one bundle, namespaced definitions under
    their namespace. `annotate` stands for the title annotation, any function of schema and name. */
module Bundle {
  import opened Json
  import opened Pointer
  import opened Wrappers
  import JsonPrinter
  import Text

  type Members = map<string, Value>

  datatype Schema = Schema(namespace: Option<string>, name: string, value: Value, inV1Dir: bool)

  datatype BundleError = Collision(namespace: string, name: string) | NamespaceNotObject(namespace: string)

  const IGNORED := {"Option<()>"}
  const SPECIAL := {"ClientNotification", "ClientRequest", "ServerNotification", "ServerRequest"}

  // ----- the ref rewriters

  /** `rewrite_refs_to_namespace` on one ref. */
  function ToNamespace(ns: string, r: string): string
  {
    if DEFS <= r && !(ns + "/" <= r[|DEFS|..]) then DEFS + (ns + "/" + r[|DEFS|..]) else r
  }

  function Namespaced(v: Value, ns: string): Value { MapRefs(v, r => ToNamespace(ns, r)) }

  function TrimDigits(s: string): string
  {
    if s != [] && '0' <= s[|s| - 1] <= '9' then TrimDigits(s[..|s| - 1]) else s
  }

  /** `namespace_for_definition`. */
  function NamespaceFor(name: string, types: map<string, string>): Option<string>
  {
    if name in types then Some(types[name])
    else if TrimDigits(name) != name && TrimDigits(name) in types then Some(types[TrimDigits(name)])
    else None
  }

  /** `rewrite_refs_to_known_namespaces` on one ref. */
  function ToKnown(types: map<string, string>, r: string): string
  {
    if !(DEFS <= r) then r
    else
      var suffix := r[|DEFS|..];
      var ns := NamespaceFor(Text.FirstSegment(suffix), types);
      if ns.None? then r else DEFS + ns.value + "/" + suffix
  }

  function Known(v: Value, types: map<string, string>): Value { MapRefs(v, r => ToKnown(types, r)) }

  /** `rewrite_named_ref_to_namespace` on one ref. */
  function ToNamed(ns: string, name: string, r: string): string
  {
    if r == DEFS + name then DEFS + ns + "/" + name
    else if DEFS + name + "/" <= r then DEFS + ns + "/" + name + "/" + r[|DEFS + name + "/"|..]
    else r
  }

  // ----- one schema

  function Without(v: Value): Value
  {
    if v.Object? then Object(v.members - {"definitions"}) else v
  }

  function DefsOf(v: Value): Members
  {
    if v.Object? && "definitions" in v.members && v.members["definitions"].Object?
    then v.members["definitions"].members else map[]
  }

  /** `insert_definition` below `insert_into_namespace`. */
  function InsertIntoNamespace(defs: Members, ns: string, name: string, schema: Value): Result<Members, BundleError>
  {
    var entry := if ns in defs then defs[ns] else Object(map[]);
    if !entry.Object? then Err(NamespaceNotObject(ns))
    else if name in entry.members then
      if entry.members[name] == schema then Ok(defs[ns := entry]) else Err(Collision(ns, name))
    else Ok(defs[ns := Object(entry.members[name := schema])])
  }

  /** Definitions of a schema that are carried along. */
  function CarriedNames(v: Value): set<string>
  {
    set n | n in DefsOf(v) && n !in IGNORED && n !in SPECIAL
  }

  /** How a definition ends up below its schema's namespace: the refs are rewritten with the schema,
      the titles annotated, and the refs rewritten again. */
  function DefValue(annotate: (Value, string) -> Value, ns: string, v: Value, n: string): Value
    requires n in DefsOf(Namespaced(v, ns))
  {
    Namespaced(annotate(DefsOf(Namespaced(v, ns))[n], n), ns)
  }

  function ForceAll(v: Value, names: seq<string>, types: map<string, string>): Value
    decreases |names|
  {
    if names == [] then v
    else
      var ns := NamespaceFor(names[0], types);
      ForceAll(if ns.Some? then MapRefs(v, r => ToNamed(ns.value, names[0], r)) else v, names[1..], types)
  }

  /** Definitions a root schema leaves at the root. */
  function RootDefs(s: Schema, types: map<string, string>): set<string>
  {
    set n | n in CarriedNames(Known(s.value, types)) && (NamespaceFor(n, types).None? || s.inV1Dir)
  }

  /** What a schema without a namespace adds to the root definitions. */
  function RootAdded(s: Schema, types: map<string, string>, annotate: (Value, string) -> Value): Members
  {
    var value := Known(s.value, types);
    var stay := RootDefs(s, types);
    (map n | n in stay :: annotate(DefsOf(value)[n], n))
    + map[s.name := ForceAll(Without(value), JsonPrinter.SortedKeys(CarriedNames(value) - stay), types)]
  }

  /** `collect_namespaced_types`: the first namespaced schema to mention a name owns it. */
  function NamespacedTypes(schemas: seq<Schema>): map<string, string>
  {
    if schemas == [] then map[]
    else
      var earlier := NamespacedTypes(schemas[..|schemas| - 1]);
      var s := schemas[|schemas| - 1];
      if s.namespace.None? then earlier
      else (map n | n in {s.name} + DefsOf(s.value).Keys + DollarDefs(s.value) :: s.namespace.value) + earlier
  }

  function DollarDefs(v: Value): set<string>
  {
    if v.Object? && "$defs" in v.members && v.members["$defs"].Object? then v.members["$defs"].members.Keys else {}
  }

  // ----- what the namespaces should hold

  datatype Contribution = Contribution(namespace: string, name: string, value: Value)

  function Of(s: Schema, annotate: (Value, string) -> Value): set<Contribution>
  {
    if s.namespace.None? || s.name in IGNORED then {}
    else
      var ns := s.namespace.value;
      var v := Namespaced(s.value, ns);
      OfDefs(s, ns, annotate, CarriedNames(v)) + {Contribution(ns, s.name, Without(v))}
  }

  function OfDefs(s: Schema, ns: string, annotate: (Value, string) -> Value, names: set<string>): set<Contribution>
  {
    set n | n in names && n in CarriedNames(Namespaced(s.value, ns)) ::
      Contribution(ns, n, DefValue(annotate, ns, s.value, n))
  }

  lemma OfDefsNext(s: Schema, ns: string, annotate: (Value, string) -> Value, names: set<string>, n: string)
    requires n in CarriedNames(Namespaced(s.value, ns))
    ensures OfDefs(s, ns, annotate, names + {n})
         == OfDefs(s, ns, annotate, names) + {Contribution(ns, n, DefValue(annotate, ns, s.value, n))}
  {
  }

  function Contributions(schemas: seq<Schema>, annotate: (Value, string) -> Value): set<Contribution>
  {
    set i, c | 0 <= i < |schemas| && c in Of(schemas[i], annotate) :: c
  }

  /** No name is given two different schemas in one namespace. */
  predicate Consistent(cs: set<Contribution>)
  {
    forall a, b | a in cs && b in cs && a.namespace == b.namespace && a.name == b.name :: a.value == b.value
  }

  function Namespaces(schemas: seq<Schema>): set<string>
  {
    set i | 0 <= i < |schemas| && schemas[i].namespace.Some? :: schemas[i].namespace.value
  }

  /** Nothing put at the root is named after a namespace. */
  predicate RootApart(schemas: seq<Schema>, annotate: (Value, string) -> Value)
  {
    forall i | 0 <= i < |schemas| && schemas[i].namespace.None? && schemas[i].name !in IGNORED ::
      RootAdded(schemas[i], NamespacedTypes(schemas), annotate).Keys !! Namespaces(schemas)
  }

  /** What the schemas without a namespace leave at the root: the last writer of a name wins. */
  function RootDefinitions(schemas: seq<Schema>, types: map<string, string>,
                           annotate: (Value, string) -> Value): Members
  {
    if schemas == [] then map[]
    else
      var s := schemas[|schemas| - 1];
      RootDefinitions(schemas[..|schemas| - 1], types, annotate)
      + if s.namespace.Some? || s.name in IGNORED then map[] else RootAdded(s, types, annotate)
  }

  predicate InNamespace(defs: Members, c: Contribution)
  {
    && c.namespace in defs && defs[c.namespace].Object?
    && c.name in defs[c.namespace].members && defs[c.namespace].members[c.name] == c.value
  }

  /** The namespaces hold exactly the contributions. */
  ghost predicate Holds(defs: Members, names: set<string>, cs: set<Contribution>)
  {
    && (forall ns | ns in names && ns in defs :: defs[ns].Object? && defs[ns].members != map[])
    && (forall c: Contribution | c.namespace in names :: InNamespace(defs, c) <==> c in cs)
  }

  lemma InsertHolds(defs: Members, names: set<string>, cs: set<Contribution>, c: Contribution)
    requires Holds(defs, names, cs) && c.namespace in names
    ensures var r := InsertIntoNamespace(defs, c.namespace, c.name, c.value);
      && (r.Ok? <==> forall d | d in cs && d.namespace == c.namespace && d.name == c.name :: d.value == c.value)
      && (r.Ok? ==> Holds(r.value, names, cs + {c}))
  {
    var r := InsertIntoNamespace(defs, c.namespace, c.name, c.value);
    if c.namespace in defs && c.name in defs[c.namespace].members {
      var d := Contribution(c.namespace, c.name, defs[c.namespace].members[c.name]);
      assert InNamespace(defs, d);
    }
    assert forall d | d in cs && d.namespace == c.namespace && d.name == c.name :: InNamespace(defs, d);
    if r.Ok? {
      forall d: Contribution | d.namespace in names ensures InNamespace(r.value, d) <==> d in cs + {c} {
        if d.namespace == c.namespace && d.name == c.name {
          if d in cs { assert InNamespace(defs, d); }
        } else {
          assert InNamespace(r.value, d) <==> InNamespace(defs, d);
        }
      }
    }
  }

  lemma OneMore(cs: set<Contribution>, c: Contribution)
    requires Consistent(cs)
    ensures Consistent(cs + {c}) <==>
      forall d | d in cs && d.namespace == c.namespace && d.name == c.name :: d.value == c.value
  {
  }

  lemma ConflictAmong(some: set<Contribution>, all: set<Contribution>)
    requires some <= all && Consistent(all)
    ensures Consistent(some)
  {
  }

  method InsertDefs(defs: Members, s: Schema, ns: string, annotate: (Value, string) -> Value,
                    ghost names: set<string>, ghost cs: set<Contribution>)
    returns (r: Result<Members, BundleError>)
    requires ns in names && Holds(defs, names, cs) && Consistent(cs)
    ensures var all := cs + OfDefs(s, ns, annotate, CarriedNames(Namespaced(s.value, ns)));
      (r.Ok? <==> Consistent(all)) && (r.Ok? ==> Holds(r.value, names, all))
    ensures r.Ok? ==> r.value - names == defs - names
  {
    var carried := CarriedNames(Namespaced(s.value, ns));
    ghost var all := cs + OfDefs(s, ns, annotate, carried);
    var rest := carried;
    var definitions := defs;
    ghost var done: set<string> := {};
    ghost var held := cs;
    while rest != {}
      invariant done + rest == carried && held == cs + OfDefs(s, ns, annotate, done)
      invariant Holds(definitions, names, held) && Consistent(held)
      invariant definitions - names == defs - names
    {
      var n :| n in rest;
      OfDefsNext(s, ns, annotate, done, n);
      var c := Contribution(ns, n, DefValue(annotate, ns, s.value, n));
      InsertHolds(definitions, names, held, c);
      OneMore(held, c);
      var inserted := InsertIntoNamespace(definitions, ns, n, c.value);
      if inserted.Err? {
        if Consistent(all) { ConflictAmong(held + {c}, all); }
        return inserted;
      }
      rest, done := rest - {n}, done + {n};
      definitions, held := inserted.value, held + {c};
    }
    assert done == carried;
    return Ok(definitions);
  }

  /** One namespaced schema: its definitions, then itself. */
  method AddNamespaced(defs: Members, s: Schema, annotate: (Value, string) -> Value, ghost names: set<string>,
                       ghost cs: set<Contribution>)
    returns (r: Result<Members, BundleError>)
    requires s.namespace.Some? && s.name !in IGNORED && s.namespace.value in names
    requires Holds(defs, names, cs) && Consistent(cs)
    ensures r.Ok? <==> Consistent(cs + Of(s, annotate))
    ensures r.Ok? ==> Holds(r.value, names, cs + Of(s, annotate)) && r.value - names == defs - names
  {
    var ns := s.namespace.value;
    var value := Namespaced(s.value, ns);
    ghost var done := cs + OfDefs(s, ns, annotate, CarriedNames(value));
    var c := Contribution(ns, s.name, Without(value));
    assert done + {c} == cs + Of(s, annotate);
    r := InsertDefs(defs, s, ns, annotate, names, cs);
    if r.Err? { return r; }
    InsertHolds(r.value, names, done, c);
    r := InsertIntoNamespace(r.value, ns, s.name, c.value);
  }

  lemma RootHolds(defs: Members, added: Members, names: set<string>, cs: set<Contribution>)
    requires Holds(defs, names, cs) && added.Keys !! names
    ensures Holds(defs + added, names, cs)
  {
    forall c: Contribution | c.namespace in names ensures InNamespace(defs + added, c) <==> c in cs {
      assert InNamespace(defs + added, c) <==> InNamespace(defs, c);
    }
  }

  lemma ContributionsNext(schemas: seq<Schema>, i: nat, annotate: (Value, string) -> Value)
    requires i < |schemas|
    ensures Contributions(schemas[..i + 1], annotate)
         == Contributions(schemas[..i], annotate) + Of(schemas[i], annotate)
  {
    var a, b := schemas[..i + 1], schemas[..i];
    forall c | c in Contributions(a, annotate) ensures c in Contributions(b, annotate) + Of(schemas[i], annotate) {
      var j :| 0 <= j < |a| && c in Of(a[j], annotate);
      if j < i { assert c in Of(b[j], annotate); }
    }
    forall c | c in Contributions(b, annotate) + Of(schemas[i], annotate) ensures c in Contributions(a, annotate) {
      if c in Contributions(b, annotate) {
        var j :| 0 <= j < |b| && c in Of(b[j], annotate);
        assert c in Of(a[j], annotate);
      } else {
        assert c in Of(a[i], annotate);
      }
    }
  }

  lemma {:induction false} ContributionsGrow(schemas: seq<Schema>, i: nat, annotate: (Value, string) -> Value)
    requires i <= |schemas|
    ensures Contributions(schemas[..i], annotate) <= Contributions(schemas, annotate)
    decreases |schemas| - i
  {
    if i == |schemas| {
      assert schemas[..i] == schemas;
    } else {
      ContributionsNext(schemas, i, annotate);
      ContributionsGrow(schemas, i + 1, annotate);
    }
  }

  /** The bundle after the first `i` schemas. */
  ghost predicate Merged(schemas: seq<Schema>, i: nat, annotate: (Value, string) -> Value, defs: Members)
    requires i <= |schemas|
  {
    && Consistent(Contributions(schemas[..i], annotate))
    && Holds(defs, Namespaces(schemas), Contributions(schemas[..i], annotate))
    && defs - Namespaces(schemas) == RootDefinitions(schemas[..i], NamespacedTypes(schemas), annotate)
  }

  lemma AddApart(defs: Members, added: Members, names: set<string>)
    requires added.Keys !! names
    ensures (defs + added) - names == (defs - names) + added
  {
  }

  lemma NoContribution(schemas: seq<Schema>, i: nat, annotate: (Value, string) -> Value)
    requires i < |schemas| && (schemas[i].namespace.None? || schemas[i].name in IGNORED)
    ensures Contributions(schemas[..i + 1], annotate) == Contributions(schemas[..i], annotate)
  {
    ContributionsNext(schemas, i, annotate);
  }

  lemma RootDefinitionsNext(schemas: seq<Schema>, i: nat, types: map<string, string>,
                            annotate: (Value, string) -> Value)
    requires i < |schemas| && schemas[i].namespace.None? && schemas[i].name !in IGNORED
    ensures RootDefinitions(schemas[..i + 1], types, annotate)
         == RootDefinitions(schemas[..i], types, annotate) + RootAdded(schemas[i], types, annotate)
  {
    assert schemas[..i + 1][..i] == schemas[..i];
  }

  lemma RootDefinitionsSame(schemas: seq<Schema>, i: nat, types: map<string, string>,
                            annotate: (Value, string) -> Value)
    requires i < |schemas| && (schemas[i].namespace.Some? || schemas[i].name in IGNORED)
    ensures RootDefinitions(schemas[..i + 1], types, annotate) == RootDefinitions(schemas[..i], types, annotate)
  {
    assert schemas[..i + 1][..i] == schemas[..i];
  }

  lemma MergedRoot(schemas: seq<Schema>, i: nat, annotate: (Value, string) -> Value, defs: Members, added: Members)
    requires RootApart(schemas, annotate) && i < |schemas| && Merged(schemas, i, annotate, defs)
    requires schemas[i].namespace.None? && schemas[i].name !in IGNORED
    requires added == RootAdded(schemas[i], NamespacedTypes(schemas), annotate)
    ensures Merged(schemas, i + 1, annotate, defs + added)
  {
    RootDefinitionsNext(schemas, i, NamespacedTypes(schemas), annotate);
    NoContribution(schemas, i, annotate);
    RootHolds(defs, added, Namespaces(schemas), Contributions(schemas[..i], annotate));
    AddApart(defs, added, Namespaces(schemas));
  }

  lemma MergedNamespaced(schemas: seq<Schema>, i: nat, annotate: (Value, string) -> Value, defs: Members,
                         defs': Members)
    requires i < |schemas| && Merged(schemas, i, annotate, defs)
    requires schemas[i].namespace.Some? || schemas[i].name in IGNORED
    requires var cs := Contributions(schemas[..i], annotate) + Of(schemas[i], annotate);
      Consistent(cs) && Holds(defs', Namespaces(schemas), cs)
    requires defs' - Namespaces(schemas) == defs - Namespaces(schemas)
    ensures Merged(schemas, i + 1, annotate, defs')
  {
    ContributionsNext(schemas, i, annotate);
    RootDefinitionsSame(schemas, i, NamespacedTypes(schemas), annotate);
  }

  lemma MergedIgnored(schemas: seq<Schema>, i: nat, annotate: (Value, string) -> Value, defs: Members)
    requires i < |schemas| && Merged(schemas, i, annotate, defs) && schemas[i].name in IGNORED
    ensures Merged(schemas, i + 1, annotate, defs)
  {
    NoContribution(schemas, i, annotate);
    ContributionsNext(schemas, i, annotate);
    MergedNamespaced(schemas, i, annotate, defs, defs);
  }

  /** A conflict among the first schemas is a conflict among all. */
  lemma ConflictStays(schemas: seq<Schema>, i: nat, annotate: (Value, string) -> Value)
    requires i < |schemas| && Consistent(Contributions(schemas, annotate))
    ensures Consistent(Contributions(schemas[..i], annotate) + Of(schemas[i], annotate))
  {
    ContributionsNext(schemas, i, annotate);
    ContributionsGrow(schemas, i + 1, annotate);
  }

  /** Fails exactly when two contributions to one namespaced name differ; otherwise each namespace
      holds exactly its contributions, and the rest is what the last root writer of each name left. */
  method BuildSchemaBundle(schemas: seq<Schema>, annotate: (Value, string) -> Value)
    returns (r: Result<Members, BundleError>)
    requires RootApart(schemas, annotate)
    ensures r.Ok? <==> Consistent(Contributions(schemas, annotate))
    ensures r.Ok? ==> Holds(r.value, Namespaces(schemas), Contributions(schemas, annotate))
    ensures r.Ok? ==> r.value - Namespaces(schemas) == RootDefinitions(schemas, NamespacedTypes(schemas), annotate)
  {
    var types := NamespacedTypes(schemas);
    var definitions: Members := map[];
    for i := 0 to |schemas|
      invariant Merged(schemas, i, annotate, definitions)
    {
      var s := schemas[i];
      if s.name in IGNORED {
        MergedIgnored(schemas, i, annotate, definitions);
        continue;
      }
      if s.namespace.Some? {
        var added := AddNamespaced(definitions, s, annotate, Namespaces(schemas),
                                   Contributions(schemas[..i], annotate));
        if added.Err? {
          if Consistent(Contributions(schemas, annotate)) { ConflictStays(schemas, i, annotate); }
          return added;
        }
        MergedNamespaced(schemas, i, annotate, definitions, added.value);
        definitions := added.value;
      } else {
        var added := RootAdded(s, types, annotate);
        MergedRoot(schemas, i, annotate, definitions, added);
        definitions := definitions + added;
      }
    }
    assert schemas[..|schemas|] == schemas;
    return Ok(definitions);
  }

  // ----- what follows

  lemma ToNamespaceTwice(ns: string, r: string)
    ensures ToNamespace(ns, ToNamespace(ns, r)) == ToNamespace(ns, r)
  {
    if DEFS <= r && !(ns + "/" <= r[|DEFS|..]) {
      var r' := ToNamespace(ns, r);
      assert r'[|DEFS|..] == ns + "/" + r[|DEFS|..];
    }
  }

  /** Rewriting to a namespace is idempotent on whole schemas. */
  lemma NamespacedTwice(v: Value, ns: string)
    ensures Namespaced(Namespaced(v, ns), ns) == Namespaced(v, ns)
  {
    var f := r => ToNamespace(ns, r);
    MapRefsRefs(v, f);
    forall s | s in Refs(Namespaced(v, ns)) ensures f(s) == s {
      var r :| r in Refs(v) && f(r) == s;
      ToNamespaceTwice(ns, r);
    }
    MapRefsFixed(Namespaced(v, ns), f);
  }

  lemma DefRefs(v: Value, n: string, r: string)
    requires n in DefsOf(v) && r in Refs(DefsOf(v)[n])
    ensures r in Refs(v)
  {
    assert r in Refs(v.members["definitions"]);
  }

  /** So if annotating a definition adds no refs, it is stored as annotated after one rewrite. */
  lemma StoredAfterOneRewrite(annotate: (Value, string) -> Value, ns: string, v: Value, n: string)
    requires n in DefsOf(Namespaced(v, ns))
    requires Refs(annotate(DefsOf(Namespaced(v, ns))[n], n)) <= Refs(DefsOf(Namespaced(v, ns))[n])
    ensures DefValue(annotate, ns, v, n) == annotate(DefsOf(Namespaced(v, ns))[n], n)
  {
    var f := r => ToNamespace(ns, r);
    var w := Namespaced(v, ns);
    MapRefsRefs(v, f);
    forall s | s in Refs(annotate(DefsOf(w)[n], n)) ensures f(s) == s {
      DefRefs(w, n, s);
      var r :| r in Refs(v) && f(r) == s;
      ToNamespaceTwice(ns, r);
    }
    MapRefsFixed(annotate(DefsOf(w)[n], n), f);
  }

  lemma ContributionsPermuted(a: seq<Schema>, b: seq<Schema>, annotate: (Value, string) -> Value)
    requires multiset(a) == multiset(b)
    ensures Contributions(a, annotate) <= Contributions(b, annotate) && Namespaces(a) <= Namespaces(b)
  {
    forall i | 0 <= i < |a| ensures exists j :: 0 <= j < |b| && b[j] == a[i] {
      assert a[i] in multiset(b);
    }
  }

  lemma NamespacesShared(a: seq<Schema>, da: Members, db: Members, annotate: (Value, string) -> Value)
    requires Holds(da, Namespaces(a), Contributions(a, annotate))
    requires Holds(db, Namespaces(a), Contributions(a, annotate))
    ensures forall ns | ns in Namespaces(a) && ns in da :: ns in db
  {
    forall ns | ns in Namespaces(a) && ns in da ensures ns in db {
      var n :| n in da[ns].members;
      assert InNamespace(da, Contribution(ns, n, da[ns].members[n]));
      assert InNamespace(db, Contribution(ns, n, da[ns].members[n]));
    }
  }

  /** Whatever order the schemas come in, bundling fails alike, and any two results agree on every
      namespace. */
  lemma {:induction false} BundleOrderIrrelevant(a: seq<Schema>, b: seq<Schema>, annotate: (Value, string) -> Value,
                                                 da: Members, db: Members)
    requires multiset(a) == multiset(b)
    requires Holds(da, Namespaces(a), Contributions(a, annotate))
    requires Holds(db, Namespaces(b), Contributions(b, annotate))
    ensures Consistent(Contributions(a, annotate)) <==> Consistent(Contributions(b, annotate))
    ensures Namespaces(a) == Namespaces(b)
    ensures forall ns | ns in Namespaces(a) :: (ns in da <==> ns in db) && (ns in da ==> da[ns] == db[ns])
  {
    ContributionsPermuted(a, b, annotate);
    ContributionsPermuted(b, a, annotate);
    NamespacesShared(a, da, db, annotate);
    NamespacesShared(b, db, da, annotate);
    forall ns | ns in Namespaces(a) && ns in da ensures da[ns] == db[ns] {
      var ma, mb := da[ns].members, db[ns].members;
      forall n | n in ma ensures n in mb && mb[n] == ma[n] {
        assert InNamespace(da, Contribution(ns, n, ma[n]));
        assert InNamespace(db, Contribution(ns, n, ma[n]));
      }
      forall n | n in mb ensures n in ma {
        assert InNamespace(db, Contribution(ns, n, mb[n]));
        assert InNamespace(da, Contribution(ns, n, mb[n]));
      }
      assert ma == mb;
    }
  }

  // ----- refs of root schemas

  lemma {:induction false} TypesOwner(schemas: seq<Schema>, n: string) returns (i: nat)
    requires n in NamespacedTypes(schemas)
    ensures i < |schemas| && schemas[i].namespace == Some(NamespacedTypes(schemas)[n])
    ensures n == schemas[i].name || n in DefsOf(schemas[i].value) || n in DollarDefs(schemas[i].value)
    decreases |schemas|
  {
    var earlier := NamespacedTypes(schemas[..|schemas| - 1]);
    if n in earlier {
      i := TypesOwner(schemas[..|schemas| - 1], n);
    } else {
      i := |schemas| - 1;
    }
  }

  /** Rewriting refs goes through the definitions one by one. */
  lemma RewrittenDefs(v: Value, f: string -> string)
    ensures DefsOf(MapRefs(v, f)).Keys == DefsOf(v).Keys
    ensures forall k | k in DefsOf(v) && k != REF :: DefsOf(MapRefs(v, f))[k] == MapRefs(DefsOf(v)[k], f)
  {
    assert REF != "definitions";
    if v.Object? && "definitions" in v.members {
      assert MapRefs(v, f).members["definitions"] == MapRefs(v.members["definitions"], f);
      assert v.members["definitions"].Object? ==>
        MapRefs(v.members["definitions"], f).members.Keys == v.members["definitions"].members.Keys;
    }
  }

  lemma KnownRef(types: map<string, string>, n: string)
    requires '/' !in n && n in types
    ensures ToKnown(types, DEFS + n) == DEFS + types[n] + "/" + n
  {
    assert (DEFS + n)[|DEFS|..] == n;
    Text.FirstSegmentWhole(n);
  }

  /** Whatever name a namespaced schema owns is contributed to its namespace. */
  lemma OwnedIsContributed(schemas: seq<Schema>, annotate: (Value, string) -> Value, i: nat, n: string)
    returns (c: Contribution)
    requires i < |schemas| && schemas[i].namespace.Some? && schemas[i].name !in IGNORED
    requires n == schemas[i].name || (n in DefsOf(schemas[i].value) && n !in IGNORED && n !in SPECIAL)
    ensures c in Contributions(schemas, annotate) && c.namespace == schemas[i].namespace.value && c.name == n
    ensures c.namespace in Namespaces(schemas)
  {
    var ns := schemas[i].namespace.value;
    var v := Namespaced(schemas[i].value, ns);
    if n == schemas[i].name {
      c := Contribution(ns, n, Without(v));
    } else {
      RewrittenDefs(schemas[i].value, r => ToNamespace(ns, r));
      c := Contribution(ns, n, DefValue(annotate, ns, schemas[i].value, n));
      assert c in OfDefs(schemas[i], ns, annotate, CarriedNames(v));
    }
    assert c in Of(schemas[i], annotate);
  }

  /** A root schema's reference to a name some namespaced schema owns is pointed into that namespace,
      and there is a definition there: the owner mentions the name as its own or among its
      definitions. Names known only from a `$defs` key, or special or ignored ones, are the exception. */
  lemma {:induction false} RootRefRetargeted(schemas: seq<Schema>, annotate: (Value, string) -> Value, bundle: Value,
                                             n: string)
    requires bundle.Object? && "definitions" in bundle.members && bundle.members["definitions"].Object?
    requires Holds(bundle.members["definitions"].members, Namespaces(schemas), Contributions(schemas, annotate))
    requires PlainName(n) && n in NamespacedTypes(schemas) && PlainName(NamespacedTypes(schemas)[n])
    requires n !in IGNORED && n !in SPECIAL
    requires forall i | 0 <= i < |schemas| && schemas[i].namespace.Some? ::
      schemas[i].name !in IGNORED && n !in DollarDefs(schemas[i].value)
    ensures ToKnown(NamespacedTypes(schemas), DEFS + n) == DEFS + NamespacedTypes(schemas)[n] + "/" + n
    ensures Resolve(bundle, ToKnown(NamespacedTypes(schemas), DEFS + n)).Some?
  {
    var types := NamespacedTypes(schemas);
    var i := TypesOwner(schemas, n);
    var c := OwnedIsContributed(schemas, annotate, i, n);
    assert InNamespace(bundle.members["definitions"].members, c);
    KnownRef(types, n);
    ResolveNamespaced(bundle, types[n], n);
  }
}
