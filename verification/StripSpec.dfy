/** What stripping method variants takes out of a schema and what it leaves, said about the values before
    and after. */
module StripSpec {
  import opened Json
  import opened Text
  import opened Pointer
  import opened Closure
  import opened Paths
  import opened Sequences
  import opened Strip
  import opened Wrappers
  import Variants

  /** The `method` among the properties is this constant, or else the first value of an `enum`. */
  predicate Tagged(v: Value, name: string)
  {
    if Variants.TextAt(v, Variants.TAG + [Member("const")])
    then At(v, Variants.TAG + [Member("const")]) == Some(String(name))
    else
      var at := At(v, Variants.TAG + [Member("enum")]);
      at.Some? && at.value.Array? && at.value.items != [] && at.value.items[0] == String(name)
  }

  predicate Listed(v: Value, methods: set<string>) { exists m | m in methods :: Tagged(v, m) }

  function NotListed(methods: set<string>): Value -> bool { v => !Listed(v, methods) }

  /** The reference leads to the definition `n`, or into it. */
  predicate LeadsTo(r: string, n: string)
  {
    && "#/definitions/" <= r && '/' !in n && n <= r[|"#/definitions/"|..]
    && (|r| == |"#/definitions/"| + |n| || r[|"#/definitions/"| + |n|] == '/')
  }

  ghost predicate RefersTo(v: Value, n: string)
  {
    exists path :: RefAt(v, path) && LeadsTo(At(v, path).value.s, n)
  }

  /** Some reference to `n` stands outside every map of definitions. */
  ghost predicate OpenlyRefersTo(v: Value, n: string)
  {
    exists path :: RefAt(v, path) && LeadsTo(At(v, path).value.s, n) && Open(path)
  }

  predicate Open(path: seq<Step>) { Member("definitions") !in path && Member("$defs") !in path }

  ghost predicate Edge(defs: Members, k: string, n: string) { k in defs && RefersTo(defs[k], n) }

  /** A chain of references from outside the definitions of `v` to `n`. */
  ghost predicate ChainTo(v: Value, defs: Members, chain: seq<string>, n: string)
  {
    && chain != [] && chain[|chain| - 1] == n && OpenlyRefersTo(v, chain[0])
    && forall i | 0 < i < |chain| :: Edge(defs, chain[i - 1], chain[i])
  }

  predicate HasVariants(v: Value) { v.Object? && "oneOf" in v.members && v.members["oneOf"].Array? }

  /** `b` is `a` without the variants of the listed methods, each other variant kept in its order, and
      without the definitions that no chain of references from outside the definitions leads to. */
  ghost predicate WithoutVariants(a: Value, b: Value, methods: set<string>)
  {
    if !HasVariants(a) then b == a
    else
      && HasVariants(b) && b.members.Keys == a.members.Keys
      && (forall k | k in a.members && k != "oneOf" && k != "definitions" :: b.members[k] == a.members[k])
      && (exists at ::
            && Positions(a.members["oneOf"].items, NotListed(methods), at)
            && Selects(a.members["oneOf"].items, b.members["oneOf"].items, at))
      && ("definitions" in a.members ==>
            if a.members["definitions"].Object?
            then DefinitionsLeft(b, a.members["definitions"].members, b.members["definitions"])
            else b.members["definitions"] == a.members["definitions"])
  }

  ghost predicate DefinitionsLeft(b: Value, before: Members, left: Value)
  {
    && left.Object?
    && (forall n :: n in left.members <==> n in before && exists chain :: ChainTo(b, before, chain, n))
    && (forall n | n in left.members :: left.members[n] == before[n])
  }

  lemma {:induction false} ListedIff(v: Value, methods: set<string>)
    ensures IsMethodVariant(v, methods) <==> Listed(v, methods)
  {
    Variants.TagAt(v, "const");
    Variants.TagAt(v, "enum");
    if IsMethodVariant(v, methods) {
      var literal := StringLiteral(v.members["properties"].members["method"]);
      assert Tagged(v, literal.value);
    }
  }

  lemma LeadsToIff(r: string, n: string)
    ensures LeadsTo(r, n) <==> NameOf(r) == Some(n)
  {
    if DEFS <= r {
      var suffix := r[|DEFS|..];
      FirstSegmentIsUpToSlash(suffix);
      if LeadsTo(r, n) {
        assert suffix == n + suffix[|n|..];
        FirstSegmentUnique(n, suffix[|n|..]);
      }
    }
  }

  lemma {:induction false} LocalNamesAre(v: Value, n: string)
    ensures n in LocalNames(v) <==> RefersTo(v, n)
  {
    if n in LocalNames(v) {
      var r :| r in Refs(v) && NameOf(r) == Some(n);
      var path := WhereRef(v, r);
      LeadsToIff(r, n);
    }
    if path :| RefAt(v, path) && LeadsTo(At(v, path).value.s, n) {
      RefFound(v, path);
      LeadsToIff(At(v, path).value.s, n);
    }
  }

  lemma {:induction false} WhereVisible(v: Value, n: string) returns (path: seq<Step>)
    requires n in VisibleNames(v)
    ensures RefAt(v, path) && LeadsTo(At(v, path).value.s, n) && Open(path)
  {
    match v
    case Array(items) =>
      var i: nat :| i < |items| && n in VisibleNames(items[i]);
      var rest := WhereVisible(items[i], n);
      AtChild(v, Item(i), rest);
      path := [Item(i)] + rest;
    case Object(m) =>
      if n in OwnName(m) {
        path := [Member("$ref")];
        LeadsToIff(OwnRef(m).value, n);
        AtMember(v, "$ref", []);
        assert path == [Member("$ref")] + [];
      } else {
        var k :| k in m && k !in HIDDEN && n in VisibleNames(m[k]);
        var rest := WhereVisible(m[k], n);
        AtChild(v, Member(k), rest);
        path := [Member(k)] + rest;
      }
    case _ =>
      assert false;
      path := [];
  }

  lemma {:induction false} VisibleFound(v: Value, path: seq<Step>, n: string)
    requires RefAt(v, path) && LeadsTo(At(v, path).value.s, n) && Open(path)
    ensures n in VisibleNames(v)
    decreases |path|
  {
    var w := Child(v, path[0]).value;
    assert path == [path[0]] + path[1..];
    AtChild(v, path[0], path[1..]);
    LeadsToIff(At(v, path).value.s, n);
    if |path| == 1 {
      assert OwnRef(v.members) == Some(w.s);
    } else {
      assert forall s | s in path[1..] :: s in path;
      assert path[0] in path;
      VisibleFound(w, path[1..], n);
      if v.Array? { assert w == v.items[path[0].index]; } else { assert w == v.members[path[0].name]; }
    }
  }

  lemma {:induction false} VisibleNamesAre(v: Value, n: string)
    ensures n in VisibleNames(v) <==> OpenlyRefersTo(v, n)
  {
    if n in VisibleNames(v) {
      var path := WhereVisible(v, n);
    }
    if path :| RefAt(v, path) && LeadsTo(At(v, path).value.s, n) && Open(path) {
      VisibleFound(v, path, n);
    }
  }

  lemma EdgeIsSuccessor(defs: Members, k: string, n: string)
    ensures Edge(defs, k, n) <==> n in Successors(Graph'(defs), k)
  {
    if k in defs { LocalNamesAre(defs[k], n); }
  }

  lemma {:induction false} ChainsAre(v: Value, defs: Members, n: string)
    ensures Referenced(defs, VisibleNames(v), n) <==> exists chain :: ChainTo(v, defs, chain, n)
  {
    forall k, m ensures Edge(defs, k, m) <==> m in Successors(Graph'(defs), k) { EdgeIsSuccessor(defs, k, m); }
    forall m ensures m in VisibleNames(v) <==> OpenlyRefersTo(v, m) { VisibleNamesAre(v, m); }
    if path :| Chain(Graph'(defs), VisibleNames(v), path, n) { assert ChainTo(v, defs, path, n); }
    if chain :| ChainTo(v, defs, chain, n) { assert Chain(Graph'(defs), VisibleNames(v), chain, n); }
  }

  lemma {:induction false} RetainSelects(items: seq<Value>, methods: set<string>) returns (at: seq<nat>)
    ensures Positions(items, NotListed(methods), at) && Selects(items, Retain(items, methods), at)
  {
    if items == [] {
      at := [];
    } else {
      at := RetainSelects(Init(items), methods);
      ListedIff(Last(items), methods);
      PositionsSnoc(items, NotListed(methods), at);
      SelectsSnoc(items, Retain(Init(items), methods), at);
      if !Listed(Last(items), methods) { at := at + [|items| - 1]; }
    }
  }

  lemma LeftIs(schema: Value, methods: set<string>, r: Value, trimmed: Value)
    requires HasVariants(schema) && Definitions(schema).Some?
    requires r == Stripped(schema, methods) && trimmed == Trimmed(schema, methods)
    ensures "definitions" in r.members
    ensures DefinitionsLeft(r, Definitions(schema).value, r.members["definitions"])
  {
    var before := Definitions(schema).value;
    assert Outside(r) == Outside(trimmed);
    VisibleOutside(r);
    VisibleOutside(trimmed);
    forall n
      ensures n in r.members["definitions"].members <==> n in before && exists chain :: ChainTo(r, before, chain, n)
    {
      KeepsExactlyTheReachable(schema, methods, n);
      ChainsAre(r, before, n);
    }
  }

  /** What stripping returns is the schema without those variants and what only they needed. */
  lemma {:induction false} StrippedIsWithout(schema: Value, methods: set<string>)
    ensures WithoutVariants(schema, Stripped(schema, methods), methods)
  {
    if HasVariants(schema) {
      var r, trimmed := Stripped(schema, methods), Trimmed(schema, methods);
      var at := RetainSelects(schema.members["oneOf"].items, methods);
      assert r.members["oneOf"].items == Retain(schema.members["oneOf"].items, methods);
      if Definitions(schema).Some? { LeftIs(schema, methods, r, trimmed); }
    }
  }
}
