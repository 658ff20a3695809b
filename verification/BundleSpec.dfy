/** What a merged bundle stores for each schema, said about addresses and places. */
module BundleSpec {
  import opened Json
  import opened Pointer
  import opened Bundle
  import opened Paths
  import opened Wrappers
  import JsonPrinter
  import Text

  // ----- who owns a name

  /** A namespaced schema mentions the name as its own or among its definitions. */
  predicate Mentions(s: Schema, n: string)
  {
    s.namespace.Some? &&
    (n == s.name || AmongObject(s.value, "definitions", n) || AmongObject(s.value, "$defs", n))
  }

  predicate AmongObject(v: Value, key: string, n: string)
  {
    v.Object? && key in v.members && v.members[key].Object? && n in v.members[key].members
  }

  /** The first schema to mention a name owns it for its namespace. */
  lemma {:induction false} FirstToMentionOwns(schemas: seq<Schema>, n: string)
    ensures n in NamespacedTypes(schemas) <==> exists i :: 0 <= i < |schemas| && Mentions(schemas[i], n)
    ensures forall i | 0 <= i < |schemas| && Mentions(schemas[i], n)
                       && (forall j | 0 <= j < i :: !Mentions(schemas[j], n)) ::
      n in NamespacedTypes(schemas) && Some(NamespacedTypes(schemas)[n]) == schemas[i].namespace
    decreases |schemas|
  {
    if schemas != [] {
      var init, last := schemas[..|schemas| - 1], schemas[|schemas| - 1];
      FirstToMentionOwns(init, n);
      assert forall i | 0 <= i < |init| :: schemas[i] == init[i];
      if i :| 0 <= i < |init| && Mentions(init[i], n) { assert Mentions(schemas[i], n); }
      if Mentions(last, n) { assert Mentions(schemas[|schemas| - 1], n); }
      if i :| 0 <= i < |schemas| && Mentions(schemas[i], n) {
        if i < |init| { assert Mentions(init[i], n); }
      }
    }
  }

  predicate AllDigits(s: string) { forall c | c in s :: '0' <= c <= '9' }

  /** The name without the digits it ends in. */
  ghost predicate IsStem(stem: string, n: string)
  {
    exists digits ::
      && n == stem + digits && digits != "" && AllDigits(digits)
      && (stem == "" || !('0' <= stem[|stem| - 1] <= '9'))
  }

  lemma {:induction false} TrimmedOff(s: string) returns (digits: string)
    ensures s == TrimDigits(s) + digits && AllDigits(digits)
    ensures TrimDigits(s) == "" || !('0' <= TrimDigits(s)[|TrimDigits(s)| - 1] <= '9')
  {
    digits := "";
    if s != [] && '0' <= s[|s| - 1] <= '9' {
      var rest := TrimmedOff(s[..|s| - 1]);
      digits := rest + [s[|s| - 1]];
      assert s == s[..|s| - 1] + [s[|s| - 1]];
    }
  }

  lemma {:induction false} TrimsToStem(stem: string, digits: string)
    requires AllDigits(digits) && (stem == "" || !('0' <= stem[|stem| - 1] <= '9'))
    ensures TrimDigits(stem + digits) == stem
    decreases |digits|
  {
    var s := stem + digits;
    if digits == "" {
      assert s == stem;
    } else {
      var init := digits[..|digits| - 1];
      assert digits[|digits| - 1] in digits && forall c :: c in init ==> c in digits;
      assert s[..|s| - 1] == stem + init;
      TrimsToStem(stem, init);
    }
  }

  /** A definition belongs to the namespace that owns its name, or else its name without the digits it ends in. */
  lemma {:induction false} BelongsTo(n: string, types: map<string, string>, ns: string)
    ensures NamespaceFor(n, types) == Some(ns) <==>
      if n in types then types[n] == ns else exists stem :: IsStem(stem, n) && stem in types && types[stem] == ns
  {
    var digits := TrimmedOff(n);
    if TrimDigits(n) != n {
      assert IsStem(TrimDigits(n), n);
    }
    if stem :| IsStem(stem, n) && stem in types && types[stem] == ns {
      var d :| n == stem + d && d != "" && AllDigits(d) && (stem == "" || !('0' <= stem[|stem| - 1] <= '9'));
      TrimsToStem(stem, d);
    }
  }

  // ----- addresses

  /** An address in the definitions is moved below the namespace unless it starts there. */
  lemma {:induction false} MovedInto(ns: string, rest: string)
    ensures ToNamespace(ns, "#/definitions/" + rest) ==
      if ns + "/" <= rest then "#/definitions/" + rest else "#/definitions/" + ns + "/" + rest
    ensures forall r | !("#/definitions/" <= r) :: ToNamespace(ns, r) == r
  {
    var r := "#/definitions/" + rest;
    assert r[|DEFS|..] == rest;
    assert DEFS + (ns + "/" + rest) == "#/definitions/" + ns + "/" + rest;
  }

  /** An address is pointed below the namespace its first name belongs to, with whatever follows the name. */
  lemma {:induction false} PointedTo(types: map<string, string>, n: string, rest: string)
    requires '/' !in n && (rest == "" || rest[0] == '/')
    ensures ToKnown(types, "#/definitions/" + n + rest) ==
      if NamespaceFor(n, types).None? then "#/definitions/" + n + rest
      else "#/definitions/" + NamespaceFor(n, types).value + "/" + n + rest
    ensures forall r | !("#/definitions/" <= r) :: ToKnown(types, r) == r
  {
    var r := "#/definitions/" + n + rest;
    assert r[|DEFS|..] == n + rest;
    Text.FirstSegmentUnique(n, rest);
    if NamespaceFor(n, types).Some? {
      var ns := NamespaceFor(n, types).value;
      assert DEFS + ns + "/" + (n + rest) == "#/definitions/" + ns + "/" + n + rest;
    }
  }

  /** Only addresses of the one name are moved, with whatever follows it. */
  lemma {:induction false} NamedMoved(ns: string, name: string, rest: string)
    requires rest == "" || rest[0] == '/'
    ensures ToNamed(ns, name, "#/definitions/" + name + rest) == "#/definitions/" + ns + "/" + name + rest
  {
    var r := "#/definitions/" + name + rest;
    if rest == "" {
      assert r == DEFS + name;
    } else {
      assert rest == "/" + rest[1..];
      assert r == DEFS + name + "/" + rest[1..];
      assert r[|DEFS + name + "/"|..] == rest[1..];
      assert DEFS + ns + "/" + name + "/" + rest[1..] == "#/definitions/" + ns + "/" + name + rest;
    }
  }

  ghost predicate IsAddressOf(r: string, name: string)
  {
    exists rest :: r == "#/definitions/" + name + rest && (rest == "" || rest[0] == '/')
  }

  lemma {:induction false} OthersStay(ns: string, name: string, r: string)
    ensures IsAddressOf(r, name) || ToNamed(ns, name, r) == r
  {
    if r == DEFS + name {
      assert r == "#/definitions/" + name + "";
    } else if DEFS + name + "/" <= r {
      var rest := "/" + r[|DEFS + name + "/"|..];
      assert r == "#/definitions/" + name + rest;
    }
  }

  // ----- what is stored in a namespace

  const LEFT_OUT := {"Option<()>", "ClientNotification", "ClientRequest", "ServerNotification", "ServerRequest"}

  /** The value with its definitions taken off. */
  predicate Bare(v: Value, w: Value)
  {
    if v.Object? then w.Object? && w.members == v.members - {"definitions"} else w == v
  }

  /** The definition `n` of `v`. */
  predicate IsDef(v: Value, n: string, d: Value)
  {
    AmongObject(v, "definitions", n) && v.members["definitions"].members[n] == d
  }

  /** `w` is `v` with every address in the definitions moved below the namespace. */
  ghost predicate MovedBelow(v: Value, w: Value, ns: string) { Rewritten(v, w, r => ToNamespace(ns, r)) }

  /** A namespaced schema stores itself without its definitions, and each definition but those left out,
      annotated; all with their refs moved below the namespace. */
  ghost predicate Stores(s: Schema, annotate: (Value, string) -> Value, c: Contribution)
  {
    && s.namespace == Some(c.namespace) && s.name != "Option<()>"
    && exists w :: MovedBelow(s.value, w, c.namespace) && StoresFrom(s, annotate, c, w)
  }

  /** From the schema with its refs moved. */
  ghost predicate StoresFrom(s: Schema, annotate: (Value, string) -> Value, c: Contribution, w: Value)
  {
    (c.name == s.name && Bare(w, c.value)) || StoresDef(s, annotate, c, w)
  }

  ghost predicate StoresDef(s: Schema, annotate: (Value, string) -> Value, c: Contribution, w: Value)
  {
    && c.name !in LEFT_OUT
    && exists d :: IsDef(w, c.name, d) && MovedBelow(annotate(d, c.name), c.value, c.namespace)
  }

  lemma NamespacedIs(v: Value, w: Value, ns: string)
    ensures w == Namespaced(v, ns) <==> MovedBelow(v, w, ns)
  {
    MapRefsRewrites(v, w, r => ToNamespace(ns, r));
  }

  lemma {:induction false} ContributionsAreStored(s: Schema, annotate: (Value, string) -> Value, c: Contribution)
    ensures c in Of(s, annotate) <==> Stores(s, annotate, c)
  {
    if s.namespace == Some(c.namespace) {
      var ns := c.namespace;
      var v := Namespaced(s.value, ns);
      NamespacedIs(s.value, v, ns);
      if w :| MovedBelow(s.value, w, ns) && StoresFrom(s, annotate, c, w) {
        NamespacedIs(s.value, w, ns);
      }
      StoredDefs(s, annotate, c, v);
    }
  }

  lemma StoredDefs(s: Schema, annotate: (Value, string) -> Value, c: Contribution, v: Value)
    requires s.namespace == Some(c.namespace) && v == Namespaced(s.value, c.namespace)
    ensures c in OfDefs(s, c.namespace, annotate, CarriedNames(v)) <==> StoresDef(s, annotate, c, v)
  {
    var ns, n := c.namespace, c.name;
    assert n in CarriedNames(v) <==> AmongObject(v, "definitions", n) && n !in LEFT_OUT;
    if AmongObject(v, "definitions", n) {
      var d := DefsOf(v)[n];
      NamespacedIs(annotate(d, n), c.value, ns);
      assert IsDef(v, n, d);
      assert c == Contribution(ns, n, c.value);
      assert c in OfDefs(s, ns, annotate, CarriedNames(v)) <==>
        n in CarriedNames(v) && c.value == DefValue(annotate, ns, s.value, n);
    }
  }

  // ----- what is stored at the root

  /** `to` is `from` with the addresses of the names moved, one name after the other. */
  ghost predicate NamesMoved(from: Value, to: Value, names: seq<string>, types: map<string, string>)
    decreases |names|
  {
    if names == [] then to == from
    else
      exists next ::
        && Rewritten(from, next, r => if NamespaceFor(names[0], types).None? then r
                                      else ToNamed(NamespaceFor(names[0], types).value, names[0], r))
        && NamesMoved(next, to, names[1..], types)
  }

  lemma {:induction false} ForcedAreMoved(v: Value, names: seq<string>, types: map<string, string>)
    ensures NamesMoved(v, ForceAll(v, names, types), names, types)
    decreases |names|
  {
    if names != [] {
      var ns := NamespaceFor(names[0], types);
      var f := (r: string) => if ns.None? then r else ToNamed(ns.value, names[0], r);
      var next := MapRefs(v, f);
      MapRefsRewrites(v, next, f);
      if ns.None? {
        MapRefsFixed(v, f);
      } else {
        SameMap(v, f, r => ToNamed(ns.value, names[0], r));
      }
      ForcedAreMoved(next, names[1..], types);
    }
  }

  lemma SameMap(v: Value, f: string -> string, g: string -> string)
    requires forall r | r in Refs(v) :: f(r) == g(r)
    ensures MapRefs(v, f) == MapRefs(v, g)
  {
    MapRefsRewrites(v, MapRefs(v, f), f);
    RewrittenAlike(v, MapRefs(v, f), f, g);
    MapRefsRewrites(v, MapRefs(v, f), g);
  }

  /** A definition of a root schema that is left at the root: one that is not left out and belongs to no
      namespace, or any such of a schema from the v1 directory. */
  predicate Remains(s: Schema, types: map<string, string>, n: string)
  {
    AmongObject(s.value, "definitions", n) && n !in LEFT_OUT && (NamespaceFor(n, types).None? || s.inV1Dir)
  }

  /** The definitions of a root schema that go to a namespace. */
  predicate Leaves(s: Schema, types: map<string, string>, n: string)
  {
    AmongObject(s.value, "definitions", n) && n !in LEFT_OUT && !Remains(s, types, n)
  }

  lemma KnownIs(s: Schema, types: map<string, string>, w: Value)
    ensures w == Known(s.value, types) <==> Rewritten(s.value, w, r => ToKnown(types, r))
  {
    MapRefsRewrites(s.value, w, r => ToKnown(types, r));
  }

  lemma RemainingAre(s: Schema, types: map<string, string>, w: Value, n: string)
    requires w == Known(s.value, types)
    ensures n in RootDefs(s, types) <==> Remains(s, types, n)
    ensures n in CarriedNames(w) - RootDefs(s, types) <==> Leaves(s, types, n)
  {
    RewrittenDefs(s.value, r => ToKnown(types, r));
    assert n in DefsOf(w) <==> AmongObject(s.value, "definitions", n);
  }

  ghost predicate Lists(names: seq<string>, s: Schema, types: map<string, string>)
  {
    && (forall n :: n in names <==> Leaves(s, types, n))
    && (forall i, j | 0 <= i < j < |names| :: names[i] != names[j])
  }

  lemma SortedLists(names: set<string>, s: Schema, types: map<string, string>)
    requires forall n :: n in names <==> Leaves(s, types, n)
    ensures Lists(JsonPrinter.SortedKeys(names), s, types)
  {
    JsonPrinter.SortedKeysAscend(names);
    var sorted := JsonPrinter.SortedKeys(names);
    forall n ensures n in sorted <==> n in names {
      assert n in sorted <==> n in (set x | x in sorted);
    }
  }

  /** A root schema stores its remaining definitions, annotated, with their refs pointed to the namespaces. */
  lemma {:induction false} RootStores(s: Schema, types: map<string, string>, annotate: (Value, string) -> Value,
                                      w: Value, k: string)
    requires Rewritten(s.value, w, r => ToKnown(types, r))
    ensures k in RootAdded(s, types, annotate) <==> k == s.name || Remains(s, types, k)
    ensures forall d | Remains(s, types, k) && k != s.name && IsDef(w, k, d) ::
      RootAdded(s, types, annotate)[k] == annotate(d, k)
  {
    KnownIs(s, types, w);
    RemainingAre(s, types, w, k);
  }

  lemma OwnAdded(s: Schema, types: map<string, string>, annotate: (Value, string) -> Value, w: Value,
                 names: seq<string>)
    requires w == Known(s.value, types) && names == JsonPrinter.SortedKeys(CarriedNames(w) - RootDefs(s, types))
    ensures s.name in RootAdded(s, types, annotate)
    ensures RootAdded(s, types, annotate)[s.name] == ForceAll(Without(w), names, types)
  {
  }

  /** And itself, without its definitions, with the names that leave moved once more. */
  lemma {:induction false} RootStoresItself(s: Schema, types: map<string, string>, annotate: (Value, string) -> Value,
                                            w: Value)
    requires Rewritten(s.value, w, r => ToKnown(types, r))
    ensures exists bare, names ::
      Bare(w, bare) && Lists(names, s, types) && NamesMoved(bare, RootAdded(s, types, annotate)[s.name], names, types)
  {
    KnownIs(s, types, w);
    var leaving := CarriedNames(w) - RootDefs(s, types);
    forall n { RemainingAre(s, types, w, n); }
    SortedLists(leaving, s, types);
    var names := JsonPrinter.SortedKeys(leaving);
    ForcedAreMoved(Without(w), names, types);
    OwnAdded(s, types, annotate, w, names);
    assert Bare(w, Without(w)) && Lists(names, s, types);
  }
}
