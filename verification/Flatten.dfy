/** `build_flat_v2_schema`: lifts the definitions of the `v2` namespace to the root definitions map,
    with the shared root schemas and what they depend on. */
module Flatten {
  import opened Json
  import opened Text
  import opened Pointer
  import opened Closure
  import opened Paths
  import opened Wrappers

  datatype FlatError =
    | RootNotObject
    | NoDefinitions
    | NoV2Namespace
    | StillNamespaced
    | MissingDefinitions(names: set<string>)

  const SHARED := ["ClientRequest", "ServerNotification"]

  type Members = map<string, Value>

  /** `rewrite_ref_prefix` on one ref: every occurrence is replaced, as `str::replace` does. */
  function FlattenRef(r: string): string { Replace(r, V2, DEFS) }

  function FlattenRefs(v: Value): Value { MapRefs(v, FlattenRef) }

  /** `collect_non_v2_refs`: the whole suffix of each root ref. */
  function NonV2Refs(v: Value): set<string>
  {
    set r | r in Refs(v) && DEFS <= r && !(V2 <= r) :: r[|DEFS|..]
  }

  function RefGraph(defs: Members): Graph { map n | n in defs :: NonV2Refs(defs[n]) }

  function SharedRefs(defs: Members): set<string>
  {
    set k, n | k in SHARED && k in defs && n in NonV2Refs(defs[k]) :: n
  }

  function SharedSchemas(defs: Members): Members { map k | k in SHARED && k in defs :: defs[k] }

  ghost function Dependencies(defs: Members): set<string>
  {
    Least(RefGraph(defs), SharedRefs(defs))
  }

  function Added(defs: Members, v2: Members, deps: set<string>): Members
  {
    map n | n in deps && n != "v2" && n !in v2 && n in defs :: defs[n]
  }

  function FlatTitle(root: Members): string
  {
    (if "title" in root && root["title"].String? then root["title"].s else "CodexAppServerProtocol") + "V2"
  }

  function Assemble(root: Members, defs: Members, v2: Members, deps: set<string>): Value
  {
    var flat := v2 + Added(defs, v2, deps) + SharedSchemas(defs);
    Object(root["title" := String(FlatTitle(root))]["definitions" := Object(flat)])
  }

  /** `first_ref_with_prefix(..).is_some()`. */
  predicate HasRefPrefix(v: Value, prefix: string)
  {
    exists r | r in Refs(v) :: prefix <= r
  }

  /** `collect_missing_definitions`: only the first segment of each root ref. */
  function Missing(v: Value, defs: Members): set<string>
  {
    set r | r in Refs(v) && DEFS <= r && FirstSegment(r[|DEFS|..]) !in defs :: FirstSegment(r[|DEFS|..])
  }

  function Checked(flat: Value): Result<Value, FlatError>
  {
    if HasRefPrefix(flat, V2) then Err(StillNamespaced)
    else if !HasDefinitions(flat) then Err(NoDefinitions)
    else
      var missing := Missing(flat, flat.members["definitions"].members);
      if missing != {} then Err(MissingDefinitions(missing)) else Ok(flat)
  }

  predicate HasDefinitions(bundle: Value)
  {
    bundle.Object? && "definitions" in bundle.members && bundle.members["definitions"].Object?
  }

  predicate HasShape(bundle: Value)
  {
    HasDefinitions(bundle) && "v2" in Defs(bundle) && Defs(bundle)["v2"].Object?
  }

  function Defs(bundle: Value): Members
    requires HasDefinitions(bundle)
  {
    bundle.members["definitions"].members
  }

  function V2Defs(bundle: Value): Members
    requires HasShape(bundle)
  {
    Defs(bundle)["v2"].members
  }

  ghost function Flattened(bundle: Value): Value
    requires HasShape(bundle)
  {
    FlattenRefs(Assemble(bundle.members, Defs(bundle), V2Defs(bundle), Dependencies(Defs(bundle))))
  }

  ghost function FlatV2Schema(bundle: Value): Result<Value, FlatError>
  {
    if !bundle.Object? then Err(RootNotObject)
    else if !HasDefinitions(bundle) then Err(NoDefinitions)
    else if !HasShape(bundle) then Err(NoV2Namespace)
    else Checked(Flattened(bundle))
  }

  // ----- what the flat bundle holds

  /** The schema refers to the root definition `n`: some `$ref` in it holds the definition's address. */
  ghost predicate RefersTo(v: Value, n: string)
  {
    !("v2/" <= n) && exists path :: RefAt(v, path) && At(v, path) == Some(String("#/definitions/" + n))
  }

  ghost predicate RootEdge(defs: Members, k: string, n: string) { k in defs && RefersTo(defs[k], n) }

  /** A chain of references from a shared root schema to `n`. */
  ghost predicate SharedChain(defs: Members, chain: seq<string>, n: string)
  {
    && chain != [] && chain[0] in {"ClientRequest", "ServerNotification"} && chain[|chain| - 1] == n
    && forall i | 0 < i < |chain| :: RootEdge(defs, chain[i - 1], chain[i])
  }

  /** A root definition that a shared root schema needs. */
  ghost predicate Needed(defs: Members, n: string)
  {
    n in defs && n != "v2" && exists chain :: SharedChain(defs, chain, n)
  }

  /** The members keep their names, and each is rewritten; a textual one called `$ref` is a reference. */
  ghost predicate MemberRewritten(k: string, a: Value, b: Value, f: string -> string)
  {
    if k == "$ref" && a.String? then b == String(f(a.s)) else Rewritten(a, b, f)
  }

  /** The schema a flat definition comes from: a shared root schema, or v2, or else the root. */
  function Origin(defs: Members, v2: Members, n: string): Option<Value>
  {
    if n in {"ClientRequest", "ServerNotification"} && n in defs then Some(defs[n])
    else if n in v2 then Some(v2[n])
    else if n in defs then Some(defs[n])
    else None
  }

  /** `flat` holds every v2 definition and every root definition a shared schema needs, rewritten by `f`
      place by place; the title says V2, and the rest is as in `bundle`. */
  ghost predicate FlatOf(bundle: Value, flat: Value, f: string -> string)
    requires HasShape(bundle)
  {
    && HasDefinitions(flat)
    && var root, defs, v2 := bundle.members, Defs(bundle), V2Defs(bundle);
    && flat.members.Keys == root.Keys + {"title"}
    && flat.members["title"] == String(
         (if At(bundle, [Member("title")]).Some? && At(bundle, [Member("title")]).value.String?
          then At(bundle, [Member("title")]).value.s else "CodexAppServerProtocol") + "V2")
    && (forall k | k in root && k != "title" && k != "definitions" ::
          MemberRewritten(k, root[k], flat.members[k], f))
    && (forall n :: n in Defs(flat) <==> n in v2 || Needed(defs, n))
    && (forall n | n in Defs(flat) :: MemberRewritten(n, Origin(defs, v2, n).value, Defs(flat)[n], f))
  }

  lemma V2Prefix(n: string)
    ensures V2 <= DEFS + n <==> "v2/" <= n
  {
    var s := DEFS + n;
    assert V2 == DEFS + "v2/";
    assert forall i | 0 <= i < |n| :: s[14 + i] == n[i];
    if V2 <= s { assert s[14] == V2[14] && s[15] == V2[15] && s[16] == V2[16]; }
  }

  lemma RefersToIsCollected(v: Value, n: string)
    ensures RefersTo(v, n) <==> n in NonV2Refs(v)
  {
    V2Prefix(n);
    RefsAt(v, DEFS + n);
    assert (DEFS + n)[|DEFS|..] == n;
    if n in NonV2Refs(v) {
      var r :| r in Refs(v) && DEFS <= r && !(V2 <= r) && n == r[|DEFS|..];
      assert r == DEFS + n;
    }
  }

  lemma EdgeIsSuccessor(defs: Members, k: string, n: string)
    ensures RootEdge(defs, k, n) <==> n in Successors(RefGraph(defs), k)
  {
    if k in defs { RefersToIsCollected(defs[k], n); }
  }

  lemma SharedNames(k: string)
    ensures k in SHARED <==> k in {"ClientRequest", "ServerNotification"}
  {
    assert SHARED[0] == "ClientRequest" && SHARED[1] == "ServerNotification";
  }

  lemma {:induction false} ChainIsAdded(defs: Members, chain: seq<string>, n: string)
    requires SharedChain(defs, chain, n) && |chain| > 1
    ensures n in Dependencies(defs)
    decreases |chain|
  {
    var k := chain[|chain| - 2];
    LeastIsLeast(RefGraph(defs), SharedRefs(defs));
    assert RootEdge(defs, k, n);
    RefersToIsCollected(defs[k], n);
    if |chain| == 2 {
      SharedNames(k);
      assert n in SharedRefs(defs);
    } else {
      ChainIsAdded(defs, chain[..|chain| - 1], k);
      assert n in Successors(RefGraph(defs), k);
    }
  }

  lemma AddedHasChain(defs: Members, n: string) returns (chain: seq<string>)
    requires n in Dependencies(defs)
    ensures SharedChain(defs, chain, n)
  {
    LeastIsReachable(RefGraph(defs), SharedRefs(defs), n);
    var path :| Chain(RefGraph(defs), SharedRefs(defs), path, n);
    var k :| k in SHARED && k in defs && path[0] in NonV2Refs(defs[k]);
    SharedNames(k);
    RefersToIsCollected(defs[k], path[0]);
    chain := [k] + path;
    forall i | 0 < i < |chain| ensures RootEdge(defs, chain[i - 1], chain[i]) {
      if i > 1 {
        assert path[i - 1] in Successors(RefGraph(defs), path[i - 2]);
        EdgeIsSuccessor(defs, path[i - 2], path[i - 1]);
      }
    }
  }

  /** The definitions that flattening carries over are the needed ones. */
  lemma {:induction false} NeededIsCarried(defs: Members, n: string)
    ensures Needed(defs, n) <==> n in defs && n != "v2" && (n in Dependencies(defs) || n in SHARED)
  {
    SharedNames(n);
    if chain :| SharedChain(defs, chain, n) {
      if |chain| > 1 { ChainIsAdded(defs, chain, n); }
    }
    if n in SHARED {
      assert SharedChain(defs, [n], n);
    } else if n in Dependencies(defs) {
      var chain := AddedHasChain(defs, n);
    }
  }

  lemma MembersMapped(m: Members, f: string -> string, k: string)
    requires k in m
    ensures MapRefs(Object(m), f).members.Keys == m.Keys
    ensures MemberRewritten(k, m[k], MapRefs(Object(m), f).members[k], f)
  {
    MapRefsRewrites(m[k], MapRefs(m[k], f), f);
  }

  lemma FlatMember(defs: Members, v2: Members, n: string)
    ensures var flat := v2 + Added(defs, v2, Dependencies(defs)) + SharedSchemas(defs);
      && (n in flat <==> n in v2 || Needed(defs, n))
      && (n in flat ==> Origin(defs, v2, n) == Some(flat[n]))
  {
    SharedNames(n);
    NeededIsCarried(defs, n);
  }

  lemma TitleText(root: Members)
    ensures At(Object(root), [Member("title")]) == if "title" in root then Some(root["title"]) else None
  {
    if "title" in root { AtChild(Object(root), Member("title"), []); }
  }

  /** The address leads to the definition `n`, or into it. */
  ghost predicate LeadsInto(r: string, n: string)
  {
    '/' !in n && exists rest :: r == "#/definitions/" + (n + rest) && (rest == "" || rest[0] == '/')
  }

  /** The address is outside v2, and if it leads into the definitions, it leads to one of `names`. */
  ghost predicate Within(r: string, names: set<string>)
  {
    && !("#/definitions/v2/" <= r)
    && ("#/definitions/" <= r ==> exists n :: n in names && LeadsInto(r, n))
  }

  lemma LeadsIntoFirst(r: string, n: string)
    requires DEFS <= r
    ensures LeadsInto(r, n) <==> n == FirstSegment(r[|DEFS|..])
  {
    var suffix := r[|DEFS|..];
    FirstSegmentIsUpToSlash(suffix);
    var rest := suffix[|FirstSegment(suffix)|..];
    assert suffix == FirstSegment(suffix) + rest;
    assert r == DEFS + suffix;
    if LeadsInto(r, n) {
      var tail :| r == "#/definitions/" + (n + tail) && (tail == "" || tail[0] == '/');
      assert suffix == n + tail;
      FirstSegmentUnique(n, tail);
    }
  }

  lemma WithinIff(r: string, names: set<string>)
    ensures Within(r, names) <==>
      !(V2 <= r) && (DEFS <= r ==> FirstSegment(r[|DEFS|..]) in names)
  {
    if DEFS <= r {
      LeadsIntoFirst(r, FirstSegment(r[|DEFS|..]));
      if n :| n in names && LeadsInto(r, n) { LeadsIntoFirst(r, n); }
    }
  }

  lemma NoneMissing(flat: Value, r: string)
    requires HasDefinitions(flat) && r in Refs(flat) && DEFS <= r
    ensures FirstSegment(r[|DEFS|..]) in Defs(flat) || FirstSegment(r[|DEFS|..]) in Missing(flat, Defs(flat))
  {
  }

  /** The final checks pass exactly when every reference in the bundle stays within its definitions. */
  lemma {:induction false} ChecksPassIff(flat: Value)
    requires HasDefinitions(flat)
    ensures Checked(flat).Ok? <==>
      forall path | RefAt(flat, path) :: Within(At(flat, path).value.s, Defs(flat).Keys)
    ensures Checked(flat).Ok? ==> Checked(flat).value == flat
  {
    var defs := Defs(flat);
    forall path | RefAt(flat, path) ensures At(flat, path).value.s in Refs(flat) { RefFound(flat, path); }
    if Checked(flat).Ok? {
      forall r | r in Refs(flat) ensures Within(r, defs.Keys) {
        WithinIff(r, defs.Keys);
        if DEFS <= r { NoneMissing(flat, r); }
      }
    } else {
      var r :| r in Refs(flat) && (V2 <= r || (DEFS <= r && FirstSegment(r[|DEFS|..]) !in defs));
      WithinIff(r, defs.Keys);
      var path := WhereRef(flat, r);
    }
  }

  /** What flattening assembles and rewrites is the flat bundle. */
  lemma {:induction false} FlattenedIsFlat(bundle: Value)
    requires HasShape(bundle)
    ensures FlatOf(bundle, Flattened(bundle), FlattenRef)
  {
    var root, defs, v2 := bundle.members, Defs(bundle), V2Defs(bundle);
    var assembled := Assemble(root, defs, v2, Dependencies(defs)).members;
    var flat := Flattened(bundle);
    var names := v2 + Added(defs, v2, Dependencies(defs)) + SharedSchemas(defs);
    assert assembled["definitions"] == Object(names);
    assert flat.members["definitions"] == MapRefs(Object(names), FlattenRef);
    assert REF != "title";
    assert assembled["title"] == String(FlatTitle(root));
    assert flat.members["title"] == FlattenRefs(assembled["title"]);
    TitleText(root);
    forall k | k in root && k != "title" && k != "definitions"
      ensures MemberRewritten(k, root[k], flat.members[k], FlattenRef)
    {
      assert assembled[k] == root[k];
      MembersMapped(assembled, FlattenRef, k);
    }
    forall n ensures n in Defs(flat) <==> n in v2 || Needed(defs, n) { FlatMember(defs, v2, n); }
    forall n | n in Defs(flat) ensures MemberRewritten(n, Origin(defs, v2, n).value, Defs(flat)[n], FlattenRef) {
      FlatMember(defs, v2, n);
      MembersMapped(names, FlattenRef, n);
    }
  }

  method CollectShared(defs: Members) returns (shared: Members, refs: set<string>)
    ensures shared == SharedSchemas(defs) && refs == SharedRefs(defs)
  {
    shared, refs := map[], {};
    for i := 0 to |SHARED|
      invariant shared == map k | k in SHARED[..i] && k in defs :: defs[k]
      invariant refs == set k, n | k in SHARED[..i] && k in defs && n in NonV2Refs(defs[k]) :: n
    {
      assert SHARED[..i + 1] == SHARED[..i] + [SHARED[i]];
      if SHARED[i] in defs {
        refs := refs + NonV2Refs(defs[SHARED[i]]);
        shared := shared[SHARED[i] := defs[SHARED[i]]];
      }
    }
    assert SHARED[..|SHARED|] == SHARED;
  }

  lemma AddedNext(defs: Members, v2: Members, deps: set<string>, n: string)
    ensures var flat := v2 + Added(defs, v2, deps);
      v2 + Added(defs, v2, deps + {n}) == if n != "v2" && n !in flat && n in defs then flat[n := defs[n]] else flat
  {
  }

  method AddDependencies(defs: Members, v2: Members, deps: set<string>) returns (flat: Members)
    ensures flat == v2 + Added(defs, v2, deps)
  {
    var rest := deps;
    ghost var done: set<string> := {};
    flat := v2;
    assert v2 + Added(defs, v2, {}) == v2;
    while rest != {}
      invariant done + rest == deps && flat == v2 + Added(defs, v2, done)
    {
      var name :| name in rest;
      AddedNext(defs, v2, done, name);
      rest, done := rest - {name}, done + {name};
      if name != "v2" && name !in flat && name in defs {
        flat := flat[name := defs[name]];
      }
    }
    assert done == deps;
  }

  method BuildFlatV2Schema(bundle: Value) returns (r: Result<Value, FlatError>)
    ensures r == FlatV2Schema(bundle)
    ensures r.Ok? ==> HasShape(bundle) && FlatOf(bundle, r.value, FlattenRef)
  {
    if !bundle.Object? { return Err(RootNotObject); }
    if !HasDefinitions(bundle) { return Err(NoDefinitions); }
    var definitions := Defs(bundle);
    if !HasShape(bundle) { return Err(NoV2Namespace); }
    FlattenedIsFlat(bundle);
    var shared, nonV2Refs := CollectShared(definitions);
    var deps := CollectDefinitionDependencies(RefGraph(definitions), nonV2Refs);
    var flat := AddDependencies(definitions, V2Defs(bundle), deps);
    flat := flat + shared;
    var root := bundle.members["title" := String(FlatTitle(bundle.members))]["definitions" := Object(flat)];
    return Checked(FlattenRefs(Object(root)));
  }
}
