/** Flattening a closed bundle succeeds and keeps what every reference resolves to. */
module FlattenProofs {
  import opened Json
  import opened Text
  import opened Pointer
  import opened Closure
  import opened Flatten
  import opened Paths
  import opened Wrappers

  lemma LastSlash(s: string, i: nat)
    requires i + |V2| <= |s| && s[i..i + |V2|] == V2
    ensures s[i + 16] == '/'
  {
    assert s[i..i + |V2|][16] == V2[16];
  }

  /** A root ref has its slashes too far to the left to hold the v2 prefix. */
  lemma RootLacksV2(n: string)
    requires '/' !in n
    ensures !Contains(DEFS + n, V2)
  {
    var s := DEFS + n;
    assert forall k | 14 <= k < |s| :: s[k] == n[k - 14] && s[k] != '/';
    if Contains(s, V2) {
      var i := WhereContained(s, V2);
      LastSlash(s, i);
    }
  }

  // ----- what rewriting does to each kind of ref

  /** Not a reference into the definitions, and left alone by the rewrite. */
  predicate Foreign(r: string) { !(DEFS <= r) && !Contains(r, V2) }

  predicate RootRef(r: string, defs: Members)
  {
    DEFS <= r && var n := r[|DEFS|..]; PlainName(n) && n in defs && n != "v2"
  }

  predicate V2Ref(r: string, v2: Members)
  {
    V2 <= r && var n := r[|V2|..]; PlainName(n) && n in v2
  }

  lemma FlattenForeign(r: string)
    requires Foreign(r)
    ensures FlattenRef(r) == r
  {
    ReplaceNone(r, V2, DEFS);
  }

  lemma FlattenRoot(n: string)
    requires '/' !in n
    ensures FlattenRef(DEFS + n) == DEFS + n
  {
    RootLacksV2(n);
    ReplaceNone(DEFS + n, V2, DEFS);
  }

  lemma FlattenV2(n: string)
    requires '/' !in n
    ensures FlattenRef(V2 + n) == DEFS + n
  {
    assert (V2 + n)[|V2|..] == n;
    ReplaceAbsent(n, V2, DEFS, '/');
  }

  lemma RootIsNotV2(n: string)
    requires '/' !in n
    ensures !(V2 <= DEFS + n)
  {
    RootLacksV2(n);
  }

  /** Where an address leads after flattening: a v2 address loses its namespace. */
  function Lifted(r: string): string
  {
    if "#/definitions/v2/" <= r then "#/definitions/" + r[|"#/definitions/v2/"|..] else r
  }

  lemma LiftedV2(n: string)
    ensures Lifted(V2 + n) == DEFS + n
  {
    assert (V2 + n)[|V2|..] == n;
  }

  lemma LiftedRoot(n: string)
    requires '/' !in n
    ensures Lifted(DEFS + n) == DEFS + n
  {
    RootIsNotV2(n);
  }

  lemma V2AddressIsDefs(r: string)
    ensures V2 <= r ==> DEFS <= r
  {
    if V2 <= r { assert r == DEFS + ("v2/" + r[|V2|..]); }
  }

  lemma FlattenLifts(r: string, defs: Members, v2: Members)
    requires Foreign(r) || RootRef(r, defs) || V2Ref(r, v2)
    ensures FlattenRef(r) == Lifted(r)
  {
    if Foreign(r) {
      FlattenForeign(r);
      V2AddressIsDefs(r);
    } else if RootRef(r, defs) {
      assert r == DEFS + r[|DEFS|..];
      FlattenRoot(r[|DEFS|..]);
      LiftedRoot(r[|DEFS|..]);
    } else {
      assert r == V2 + r[|V2|..];
      FlattenV2(r[|V2|..]);
      LiftedV2(r[|V2|..]);
    }
  }

  // ----- closed bundles

  /** Every ref in the bundle is foreign or names a definition that is there; v2 definitions refer
      only to v2; and no `$ref` hides among the definition names. */
  predicate ClosedBundle(bundle: Value)
    requires HasShape(bundle)
  {
    && var root, defs, v2 := bundle.members, Defs(bundle), V2Defs(bundle);
    && (forall r | r in Refs(Object(root - {"definitions"})) :: Foreign(r))
    && (forall k, r | k in defs && k != "v2" && r in Refs(defs[k]) :: Foreign(r) || RootRef(r, defs) || V2Ref(r, v2))
    && (forall k, r | k in v2 && r in Refs(v2[k]) :: Foreign(r) || V2Ref(r, v2))
    && OwnRef(defs).None? && OwnRef(v2).None?
  }

  /** Root definitions that flattening carries over. */
  ghost predicate Carried(bundle: Value, n: string)
    requires HasShape(bundle)
  {
    n in Defs(bundle) && n != "v2" && (n in Dependencies(Defs(bundle)) || n in SHARED)
  }

  ghost function FlatDefs(bundle: Value): Members
    requires HasShape(bundle)
  {
    V2Defs(bundle) + Added(Defs(bundle), V2Defs(bundle), Dependencies(Defs(bundle))) + SharedSchemas(Defs(bundle))
  }

  lemma FlatDefsOrigin(bundle: Value, n: string)
    requires HasShape(bundle)
    ensures n in FlatDefs(bundle) <==> n in V2Defs(bundle) || Carried(bundle, n)
    ensures n in FlatDefs(bundle) ==>
      FlatDefs(bundle)[n] ==
        if n in V2Defs(bundle) && !(n in SHARED && n in Defs(bundle)) then V2Defs(bundle)[n] else Defs(bundle)[n]
  {
    LeastIsLeast(RefGraph(Defs(bundle)), SharedRefs(Defs(bundle)));
  }

  /** Outside the definitions every ref is foreign, and no `$ref` hides among the flat names. */
  ghost predicate PlainAround(bundle: Value)
    requires HasShape(bundle)
  {
    && (forall r | r in Refs(Object(bundle.members - {"definitions"})) :: Foreign(r))
    && OwnRef(FlatDefs(bundle)).None?
  }

  lemma AssembleRefs(bundle: Value, r: string)
    requires HasShape(bundle) && PlainAround(bundle)
    requires r in Refs(Assemble(bundle.members, Defs(bundle), V2Defs(bundle), Dependencies(Defs(bundle))))
    ensures Foreign(r) || exists n :: n in FlatDefs(bundle) && r in Refs(FlatDefs(bundle)[n])
  {
    var flat := Assemble(bundle.members, Defs(bundle), V2Defs(bundle), Dependencies(Defs(bundle))).members;
    assert flat["definitions"] == Object(FlatDefs(bundle));
    var rest := bundle.members - {"definitions"};
    if OwnRef(flat) == Some(r) {
      assert OwnRef(rest) == Some(r);
    } else {
      var k :| k in flat && r in Refs(flat[k]);
      if k == "definitions" {
        assert OwnRef(FlatDefs(bundle)) != Some(r);
      } else if k != "title" {
        assert k in rest && rest[k] == flat[k];
      }
    }
  }

  /** A root ref in a carried definition leads to a carried definition. */
  lemma CarriedClosed(bundle: Value, n: string, r: string)
    requires HasShape(bundle) && Carried(bundle, n) && r in Refs(Defs(bundle)[n]) && RootRef(r, Defs(bundle))
    ensures Carried(bundle, r[|DEFS|..])
  {
    var defs := Defs(bundle);
    var m := r[|DEFS|..];
    LeastIsLeast(RefGraph(defs), SharedRefs(defs));
    assert r == DEFS + m;
    RootIsNotV2(m);
    assert m in NonV2Refs(defs[n]);
    if n in SHARED {
      assert m in SharedRefs(defs);
    } else {
      assert m in Successors(RefGraph(defs), n);
    }
  }

  /** Rewritten, a ref is foreign or names a flat definition. */
  ghost predicate Met(bundle: Value, r: string)
    requires HasShape(bundle)
  {
    Foreign(r) || exists m :: PlainName(m) && m in FlatDefs(bundle) && FlattenRef(r) == DEFS + m
  }

  lemma MetInV2(bundle: Value, r: string)
    requires HasShape(bundle) && V2 <= r && PlainName(r[|V2|..])
    ensures FlattenRef(r) == DEFS + r[|V2|..]
    ensures r[|V2|..] in FlatDefs(bundle) ==> Met(bundle, r)
  {
    assert r == V2 + r[|V2|..];
    FlattenV2(r[|V2|..]);
  }

  lemma MetAtRoot(bundle: Value, n: string, r: string)
    requires HasShape(bundle) && Carried(bundle, n) && r in Refs(Defs(bundle)[n]) && RootRef(r, Defs(bundle))
    ensures Met(bundle, r)
  {
    var m := r[|DEFS|..];
    assert r == DEFS + m;
    FlattenRoot(m);
    CarriedClosed(bundle, n, r);
    FlatDefsOrigin(bundle, m);
  }

  lemma FlatRef(bundle: Value, n: string, r: string)
    requires HasShape(bundle) && ClosedBundle(bundle)
    requires n in FlatDefs(bundle) && r in Refs(FlatDefs(bundle)[n])
    ensures Met(bundle, r)
  {
    FlatDefsOrigin(bundle, n);
    var defs, v2 := Defs(bundle), V2Defs(bundle);
    if V2Ref(r, v2) {
      FlatDefsOrigin(bundle, r[|V2|..]);
      MetInV2(bundle, r);
    } else if RootRef(r, defs) {
      assert n !in v2 || (n in SHARED && n in defs);
      MetAtRoot(bundle, n, r);
    }
  }

  lemma FlattenedShape(bundle: Value)
    requires HasShape(bundle)
    ensures HasDefinitions(Flattened(bundle))
    ensures Defs(Flattened(bundle)) == FlattenRefs(Object(FlatDefs(bundle))).members
  {
    var flat := Assemble(bundle.members, Defs(bundle), V2Defs(bundle), Dependencies(Defs(bundle)));
    assert flat.members["definitions"] == Object(FlatDefs(bundle));
    assert Flattened(bundle).members["definitions"] == FlattenRefs(flat.members["definitions"]);
  }

  lemma FlattenedDefs(bundle: Value, n: string)
    requires HasShape(bundle) && OwnRef(FlatDefs(bundle)).None?
    ensures HasDefinitions(Flattened(bundle))
    ensures n in Defs(Flattened(bundle)) <==> n in FlatDefs(bundle)
    ensures n in FlatDefs(bundle) ==> Defs(Flattened(bundle))[n] == FlattenRefs(FlatDefs(bundle)[n])
  {
    FlattenedShape(bundle);
  }

  lemma NoOwnRef(bundle: Value)
    requires HasShape(bundle) && ClosedBundle(bundle)
    ensures OwnRef(FlatDefs(bundle)).None?
  {
    FlatDefsOrigin(bundle, REF);
  }

  ghost predicate AllMet(bundle: Value)
    requires HasShape(bundle)
  {
    forall n, r | n in FlatDefs(bundle) && r in Refs(FlatDefs(bundle)[n]) :: Met(bundle, r)
  }

  lemma AssembleMet(bundle: Value, r: string)
    requires HasShape(bundle) && PlainAround(bundle) && AllMet(bundle)
    requires r in Refs(Assemble(bundle.members, Defs(bundle), V2Defs(bundle), Dependencies(Defs(bundle))))
    ensures Met(bundle, r)
  {
    AssembleRefs(bundle, r);
  }

  lemma FlattenedRefs(bundle: Value, s: string)
    requires HasShape(bundle) && PlainAround(bundle) && AllMet(bundle) && s in Refs(Flattened(bundle))
    ensures Foreign(s) || exists m :: PlainName(m) && m in FlatDefs(bundle) && s == DEFS + m
  {
    var flat := Assemble(bundle.members, Defs(bundle), V2Defs(bundle), Dependencies(Defs(bundle)));
    var r := MapRefsAdds(flat, FlattenRef, s);
    AssembleMet(bundle, r);
    if Foreign(r) { FlattenForeign(r); }
  }

  /** Neither final check fires when every ref of a flat definition is met. */
  lemma MetSucceeds(bundle: Value)
    requires HasShape(bundle) && PlainAround(bundle) && AllMet(bundle)
    ensures FlatV2Schema(bundle) == Ok(Flattened(bundle))
  {
    var flat := Flattened(bundle);
    FlattenedDefs(bundle, "");
    forall s | s in Refs(flat)
      ensures !(V2 <= s) && (DEFS <= s ==> FirstSegment(s[|DEFS|..]) in Defs(flat))
    {
      FlattenedRefs(bundle, s);
      if !Foreign(s) {
        var m :| PlainName(m) && m in FlatDefs(bundle) && s == DEFS + m;
        RootIsNotV2(m);
        FirstSegmentWhole(m);
        assert s[|DEFS|..] == m;
        FlattenedDefs(bundle, m);
      }
    }
    assert Missing(flat, Defs(flat)) == {};
  }

  /** A ref that is foreign or leads to a single-segment name at the root or in v2. */
  predicate PlainRef(r: string)
  {
    Foreign(r) || (V2 <= r && PlainName(r[|V2|..])) || (DEFS <= r && PlainName(r[|DEFS|..]))
  }

  lemma RefInside(flat: Value, k: string, r: string)
    requires HasDefinitions(flat) && k in Defs(flat) && r in Refs(Defs(flat)[k])
    ensures r in Refs(flat)
  {
    assert r in Refs(flat.members["definitions"]);
  }

  lemma MissingAt(flat: Value, n: string)
    requires HasDefinitions(flat) && n !in Defs(flat) && '/' !in n && DEFS + n in Refs(flat)
    ensures Checked(flat).Err?
  {
    assert (DEFS + n)[|DEFS|..] == n;
    FirstSegmentWhole(n);
    assert n in Missing(flat, Defs(flat));
  }

  lemma UnmetFails(bundle: Value, k: string, r: string)
    requires HasShape(bundle) && PlainAround(bundle)
    requires k in FlatDefs(bundle) && r in Refs(FlatDefs(bundle)[k]) && PlainRef(r) && !Met(bundle, r)
    ensures FlatV2Schema(bundle).Err?
  {
    var n := if V2 <= r && PlainName(r[|V2|..]) then r[|V2|..] else r[|DEFS|..];
    if V2 <= r && PlainName(r[|V2|..]) {
      MetInV2(bundle, r);
    } else {
      assert r == DEFS + n;
      FlattenRoot(n);
    }
    assert n !in FlatDefs(bundle);
    FlattenedDefs(bundle, k);
    FlattenedDefs(bundle, n);
    MapRefsKeeps(FlatDefs(bundle)[k], FlattenRef, r);
    RefInside(Flattened(bundle), k, DEFS + n);
    MissingAt(Flattened(bundle), n);
  }

  /** Flattening succeeds exactly when every ref of a flat definition is met. */
  lemma {:induction false} FlatteningSucceedsIff(bundle: Value)
    requires HasShape(bundle) && PlainAround(bundle)
    requires forall n, r | n in FlatDefs(bundle) && r in Refs(FlatDefs(bundle)[n]) :: PlainRef(r)
    ensures FlatV2Schema(bundle).Ok? <==> AllMet(bundle)
    ensures FlatV2Schema(bundle).Ok? ==> FlatV2Schema(bundle).value == Flattened(bundle)
  {
    if AllMet(bundle) {
      MetSucceeds(bundle);
    } else {
      var n, r :| n in FlatDefs(bundle) && r in Refs(FlatDefs(bundle)[n]) && !Met(bundle, r);
      UnmetFails(bundle, n, r);
    }
  }

  /** On a closed bundle neither final check fires. */
  lemma {:induction false} FlatteningSucceeds(bundle: Value)
    requires HasShape(bundle) && ClosedBundle(bundle)
    ensures FlatV2Schema(bundle) == Ok(Flattened(bundle))
  {
    NoOwnRef(bundle);
    forall n, r | n in FlatDefs(bundle) && r in Refs(FlatDefs(bundle)[n]) ensures Met(bundle, r) {
      FlatRef(bundle, n, r);
    }
    MetSucceeds(bundle);
  }

  /** Outside the definitions only the title changes. */
  lemma FlattenedRoot(bundle: Value, k: string)
    requires HasShape(bundle) && ClosedBundle(bundle) && k != "definitions" && k != REF
    ensures var root, flat := bundle.members, Flattened(bundle).members;
      if k == "title" then k in flat && flat[k] == String(FlatTitle(root))
      else (k in flat <==> k in root) && (k in root ==> flat[k] == root[k])
  {
    var rest := bundle.members - {"definitions"};
    var assembled := Assemble(bundle.members, Defs(bundle), V2Defs(bundle), Dependencies(Defs(bundle))).members;
    assert k in assembled ==> Flattened(bundle).members[k] == FlattenRefs(assembled[k]);
    assert "title" in assembled && assembled["title"] == String(FlatTitle(bundle.members));
    if k in rest && k != "title" {
      forall r | r in Refs(rest[k]) ensures FlattenRef(r) == r {
        assert r in Refs(Object(rest));
        FlattenForeign(r);
      }
      MapRefsFixed(rest[k], FlattenRef);
    }
  }

  /** On a closed bundle the rewrite only takes the namespace off v2 addresses. */
  lemma MemberLifted(k: string, a: Value, b: Value, defs: Members, v2: Members)
    requires MemberRewritten(k, a, b, FlattenRef)
    requires forall r | r in Refs(Object(map[k := a])) :: Foreign(r) || RootRef(r, defs) || V2Ref(r, v2)
    ensures MemberRewritten(k, a, b, Lifted)
  {
    forall r | r in Refs(Object(map[k := a])) ensures FlattenRef(r) == Lifted(r) { FlattenLifts(r, defs, v2); }
    var m := map[k := a];
    if k == "$ref" && a.String? {
      assert OwnRef(m) == Some(a.s);
    } else {
      forall r | r in Refs(a) ensures FlattenRef(r) == Lifted(r) { assert r in Refs(m[k]); }
      RewrittenAlike(a, b, FlattenRef, Lifted);
    }
  }

  lemma OneMember(m: Members, k: string, r: string)
    requires k in m && r in Refs(Object(map[k := m[k]]))
    ensures r in Refs(Object(m))
    ensures OwnRef(m).None? ==> r in Refs(m[k])
  {
    var one := map[k := m[k]];
    if OwnRef(one) == Some(r) {
      assert OwnRef(m) == Some(r);
    } else {
      assert r in Refs(one[k]);
    }
  }

  /** So what a closed bundle flattens to is described without the string replacement. */
  lemma {:induction false} ClosedIsFlat(bundle: Value)
    requires HasShape(bundle) && ClosedBundle(bundle)
    ensures FlatV2Schema(bundle) == Ok(Flattened(bundle)) && FlatOf(bundle, Flattened(bundle), Lifted)
  {
    FlatteningSucceeds(bundle);
    FlattenedIsFlat(bundle);
    var root, defs, v2, flat := bundle.members, Defs(bundle), V2Defs(bundle), Flattened(bundle);
    forall k | k in root && k != "title" && k != "definitions"
      ensures MemberRewritten(k, root[k], flat.members[k], Lifted)
    {
      var rest := root - {"definitions"};
      forall r | r in Refs(Object(map[k := root[k]])) ensures Foreign(r) {
        assert rest[k] == root[k];
        OneMember(rest, k, r);
      }
      MemberLifted(k, root[k], flat.members[k], defs, v2);
    }
    forall n | n in Defs(flat) ensures MemberRewritten(n, Origin(defs, v2, n).value, Defs(flat)[n], Lifted) {
      var origin := Origin(defs, v2, n).value;
      forall r | r in Refs(Object(map[n := origin])) ensures Foreign(r) || RootRef(r, defs) || V2Ref(r, v2) {
        if n in v2 && v2[n] == origin { OneMember(v2, n, r); } else { NeededIsCarried(defs, n); OneMember(defs, n, r); }
      }
      MemberLifted(n, origin, Defs(flat)[n], defs, v2);
    }
  }

  // ----- resolution

  /** A name used in both places stands for the same schema once rewritten. */
  ghost predicate NoClash(bundle: Value)
    requires HasShape(bundle)
  {
    forall n | n in V2Defs(bundle) && Carried(bundle, n) && PlainName(n) ::
      SameRewritten(V2Defs(bundle)[n], Defs(bundle)[n])
  }

  ghost predicate SameRewritten(a: Value, b: Value)
  {
    exists w :: Rewritten(a, w, FlattenRef) && Rewritten(b, w, FlattenRef)
  }

  lemma SameRewrittenIff(a: Value, b: Value)
    ensures SameRewritten(a, b) <==> FlattenRefs(a) == FlattenRefs(b)
  {
    MapRefsRewrites(a, FlattenRefs(a), FlattenRef);
    MapRefsRewrites(b, FlattenRefs(b), FlattenRef);
    if w :| Rewritten(a, w, FlattenRef) && Rewritten(b, w, FlattenRef) {
      MapRefsRewrites(a, w, FlattenRef);
      MapRefsRewrites(b, w, FlattenRef);
    }
  }

  /** No name is used both in v2 and by a definition that flattening carries over. */
  ghost predicate Apart(bundle: Value)
    requires HasShape(bundle)
  {
    forall n | n in V2Defs(bundle) :: !Carried(bundle, n)
  }

  /** The lifted address leads to the original target, rewritten place by place. */
  ghost predicate Preserved(bundle: Value, flat: Value, r: string)
  {
    && Resolve(bundle, r).Some? && Resolve(flat, Lifted(r)).Some?
    && Rewritten(Resolve(bundle, r).value, Resolve(flat, Lifted(r)).value, FlattenRef)
  }

  lemma PreservedV2(bundle: Value, n: string)
    requires HasShape(bundle) && OwnRef(FlatDefs(bundle)).None? && n in V2Defs(bundle) && PlainName(n)
    ensures Preserved(bundle, Flattened(bundle), V2 + n) <==>
      (n in SHARED && n in Defs(bundle) ==> SameRewritten(V2Defs(bundle)[n], Defs(bundle)[n]))
  {
    LiftedV2(n);
    MapRefsRewrites(V2Defs(bundle)[n], FlattenRefs(FlatDefs(bundle)[n]), FlattenRef);
    if n in Defs(bundle) { SameRewrittenIff(V2Defs(bundle)[n], Defs(bundle)[n]); }
    ResolveV2(bundle, n);
    FlatDefsOrigin(bundle, n);
    FlattenedDefs(bundle, n);
    ResolveRoot(Flattened(bundle), n);
  }

  lemma PreservedRoot(bundle: Value, n: string)
    requires HasShape(bundle) && OwnRef(FlatDefs(bundle)).None? && Carried(bundle, n) && PlainName(n)
    ensures Preserved(bundle, Flattened(bundle), DEFS + n) <==>
      (n in V2Defs(bundle) && n !in SHARED ==> SameRewritten(V2Defs(bundle)[n], Defs(bundle)[n]))
  {
    LiftedRoot(n);
    MapRefsRewrites(Defs(bundle)[n], FlattenRefs(FlatDefs(bundle)[n]), FlattenRef);
    if n in V2Defs(bundle) { SameRewrittenIff(V2Defs(bundle)[n], Defs(bundle)[n]); }
    ResolveRoot(bundle, n);
    FlatDefsOrigin(bundle, n);
    FlattenedDefs(bundle, n);
    ResolveRoot(Flattened(bundle), n);
  }

  /** Flattening a closed bundle keeps the meaning of the address of every v2 definition and of every
      carried root definition exactly when no name clashes with a different schema. */
  lemma {:induction false} ResolutionPreservedIff(bundle: Value)
    requires HasShape(bundle) && ClosedBundle(bundle)
    ensures NoClash(bundle) <==>
      && (forall n | n in V2Defs(bundle) && PlainName(n) :: Preserved(bundle, Flattened(bundle), V2 + n))
      && (forall n | Carried(bundle, n) && PlainName(n) :: Preserved(bundle, Flattened(bundle), DEFS + n))
  {
    var flat := Flattened(bundle);
    NoOwnRef(bundle);
    if NoClash(bundle) {
      forall n | n in V2Defs(bundle) && PlainName(n) ensures Preserved(bundle, flat, V2 + n) {
        PreservedV2(bundle, n);
      }
      forall n | Carried(bundle, n) && PlainName(n) ensures Preserved(bundle, flat, DEFS + n) {
        PreservedRoot(bundle, n);
      }
    } else {
      var n :| n in V2Defs(bundle) && Carried(bundle, n) && PlainName(n)
        && !SameRewritten(V2Defs(bundle)[n], Defs(bundle)[n]);
      PreservedV2(bundle, n);
      PreservedRoot(bundle, n);
    }
  }

  /** So every reference a flat definition makes still means what it meant. */
  lemma {:induction false} EveryRefPreserved(bundle: Value, n: string, r: string)
    requires HasShape(bundle) && ClosedBundle(bundle) && NoClash(bundle)
    requires n in FlatDefs(bundle) && r in Refs(FlatDefs(bundle)[n]) && !Foreign(r)
    ensures Preserved(bundle, Flattened(bundle), r)
  {
    ResolutionPreservedIff(bundle);
    FlatDefsOrigin(bundle, n);
    if V2Ref(r, V2Defs(bundle)) {
      assert r == V2 + r[|V2|..];
    } else {
      assert r == DEFS + r[|DEFS|..];
      CarriedClosed(bundle, n, r);
    }
  }

  /** `ClientRequest` refers to a root definition `X`, and v2 has a different `X`. */
  function Clashing(): Value
  {
    Object(map["definitions" := Object(map[
      "ClientRequest" := Object(map[REF := String(DEFS + "X")]),
      "X" := Object(map["title" := String("r")]),
      "v2" := Object(map["X" := Object(map[])])])])
  }

  lemma ClashingRefs()
    ensures HasShape(Clashing()) && Defs(Clashing()).Keys == {"ClientRequest", "X", "v2"}
    ensures V2Defs(Clashing()) == map["X" := Object(map[])]
    ensures Refs(Defs(Clashing())["ClientRequest"]) == {DEFS + "X"} && Refs(Defs(Clashing())["X"]) == {}
    ensures Refs(Object(map[])) == {}
  {
    var defs := Defs(Clashing());
    assert defs["X"].members == map["title" := String("r")];
  }

  lemma ClashingClosed()
    ensures HasShape(Clashing()) && ClosedBundle(Clashing())
  {
    ClashingRefs();
    var root, defs := Clashing().members, Defs(Clashing());
    assert root - {"definitions"} == map[];
    assert (DEFS + "X")[|DEFS|..] == "X";
    assert RootRef(DEFS + "X", defs);
  }

  lemma ClashingCarried()
    ensures HasShape(Clashing()) && Carried(Clashing(), "X")
  {
    ClashingRefs();
    var defs := Defs(Clashing());
    RootIsNotV2("X");
    assert (DEFS + "X")[|DEFS|..] == "X";
    assert "X" in NonV2Refs(defs["ClientRequest"]);
    assert SHARED[0] == "ClientRequest";
    assert "X" in SharedRefs(defs);
    LeastIsLeast(RefGraph(defs), SharedRefs(defs));
  }

  lemma ClashingDiffers()
    ensures HasShape(Clashing()) && "X" in V2Defs(Clashing()) && "X" in Defs(Clashing())
    ensures !SameRewritten(V2Defs(Clashing())["X"], Defs(Clashing())["X"])
  {
    var v, w := Defs(Clashing())["X"], V2Defs(Clashing())["X"];
    assert "title" in FlattenRefs(v).members && "title" !in FlattenRefs(w).members;
    SameRewrittenIff(w, v);
  }

  lemma ClashesAt(bundle: Value, n: string)
    requires HasShape(bundle) && n in V2Defs(bundle) && Carried(bundle, n) && PlainName(n)
    requires !SameRewritten(V2Defs(bundle)[n], Defs(bundle)[n])
    ensures !NoClash(bundle)
  {
  }

  /** A closed bundle can clash, and then a reference changes its meaning. */
  lemma {:induction false} ClosedBundleCanClash()
    ensures var bundle := Clashing();
      HasShape(bundle) && ClosedBundle(bundle) && !NoClash(bundle)
  {
    ClashingClosed();
    ClashingCarried();
    ClashingDiffers();
    ClashesAt(Clashing(), "X");
  }
}
