/** When a closed bundle stays closed, and flattens, after its experimental parts are pruned. */
module PruneProofs {
  import opened Json
  import opened Pointer
  import opened Prune
  import opened FlattenProofs
  import Closure
  import Flatten

  // ----- what is left

  lemma WithDefsInside(a: Value, b: Value, defs: Value)
    requires Inside(a, b) && Flatten.HasDefinitions(b) && Inside(defs, b.members["definitions"])
    ensures Inside(WithDefs(a, defs), b)
  {
    ObjectLess(WithDefs(a, defs).members, b.members);
  }

  lemma FieldsFilteredInside(bundle: Value, e: Experimental)
    requires Flatten.HasDefinitions(bundle)
    ensures Inside(FieldsFiltered(bundle, e), bundle)
    ensures Flatten.HasDefinitions(FieldsFiltered(bundle, e))
    ensures FieldsFiltered(bundle, e).members["definitions"] == FieldsInDefs(bundle.members["definitions"], e.fields)
  {
    var m := bundle.members;
    ObjectLess(m, m);
    if "title" in m && m["title"].String? { FieldsInRootLess(bundle, m["title"].s, e.fields); }
    var b := if "title" in m && m["title"].String? then FieldsInRoot(bundle, m["title"].s, e.fields) else bundle;
    FieldsInDefsLess(m["definitions"], e.fields);
    WithDefsInside(b, bundle, FieldsInDefs(m["definitions"], e.fields));
  }

  lemma MethodsPrunedInside(bundle: Value, e: Experimental)
    requires Flatten.HasDefinitions(bundle)
    ensures Inside(MethodsPruned(bundle, e), bundle) && Flatten.HasDefinitions(MethodsPruned(bundle, e))
    ensures MethodsPruned(bundle, e).members["definitions"]
         == PruneMethods(FieldsInDefs(bundle.members["definitions"], e.fields), e.Tags())
  {
    FieldsFilteredInside(bundle, e);
    PruneMethodsLess(FieldsFiltered(bundle, e), e.Tags());
    InsideAgain(MethodsPruned(bundle, e), FieldsFiltered(bundle, e), bundle);
  }

  /** The definitions before types are removed: all of them, each with parts left out. */
  function Trimmed(bundle: Value, e: Experimental): Value
    requires Flatten.HasDefinitions(bundle)
  {
    PruneMethods(FieldsInDefs(bundle.members["definitions"], e.fields), e.Tags())
  }

  lemma TrimmedInside(bundle: Value, e: Experimental)
    requires Flatten.HasDefinitions(bundle)
    ensures Inside(Trimmed(bundle, e), bundle.members["definitions"])
    ensures Trimmed(bundle, e).members.Keys == Flatten.Defs(bundle).Keys
  {
    var defs := bundle.members["definitions"];
    FieldsInDefsLess(defs, e.fields);
    PruneMethodsLess(FieldsInDefs(defs, e.fields), e.Tags());
    InsideAgain(Trimmed(bundle, e), FieldsInDefs(defs, e.fields), defs);
  }

  /** Pruning takes nothing but the named types out of the definitions, and adds no ref anywhere. */
  lemma PrunedShape(bundle: Value, e: Experimental)
    requires Flatten.HasDefinitions(bundle)
    ensures Flatten.HasDefinitions(Pruned(bundle, e)) && Inside(Pruned(bundle, e), bundle)
    ensures Pruned(bundle, e).members["definitions"] == RemoveTypes(Trimmed(bundle, e), e)
    ensures Inside(Pruned(bundle, e).members["definitions"], bundle.members["definitions"])
    ensures forall n :: n in Flatten.Defs(Pruned(bundle, e)) <==> n in Flatten.Defs(bundle) && !Gone(e, n)
  {
    MethodsPrunedInside(bundle, e);
    TrimmedInside(bundle, e);
    RemoveTypesLess(Trimmed(bundle, e), e);
    InsideAgain(RemoveTypes(Trimmed(bundle, e), e), Trimmed(bundle, e), bundle.members["definitions"]);
    WithDefsInside(MethodsPruned(bundle, e), bundle, RemoveTypes(Trimmed(bundle, e), e));
  }

  lemma SameNamespaceMap(a: Value, b: Value)
    requires Inside(a, b) && a.members.Keys == b.members.Keys
    ensures IsNamespaceMap(a) == IsNamespaceMap(b)
  {
    assert forall k | k in b.members :: a.members[k].Object? == b.members[k].Object?;
  }

  lemma TrimmedV2(bundle: Value, e: Experimental)
    requires Flatten.HasShape(bundle)
    ensures var v := Trimmed(bundle, e).members["v2"];
      && Inside(v, Flatten.Defs(bundle)["v2"]) && v.members.Keys == Flatten.V2Defs(bundle).Keys
      && IsNamespaceMap(v) == IsNamespaceMap(Flatten.Defs(bundle)["v2"])
  {
    var v2 := Flatten.Defs(bundle)["v2"];
    var w := if IsNamespaceMap(v2) then FieldsInDefs(v2, e.fields) else RemoveFields(v2, "v2", e.fields);
    if IsNamespaceMap(v2) { FieldsInDefsLess(v2, e.fields); } else { RemoveFieldsLess(v2, "v2", e.fields); }
    PruneMethodsLess(w, e.Tags());
    assert Trimmed(bundle, e).members["v2"] == PruneMethods(w, e.Tags());
    InsideAgain(PruneMethods(w, e.Tags()), w, v2);
    SameNamespaceMap(PruneMethods(w, e.Tags()), v2);
  }

  /** From v2 the named types are taken only if it looks like a map of schemas. */
  lemma PrunedV2(bundle: Value, e: Experimental)
    requires Flatten.HasShape(bundle) && !Gone(e, "v2")
    ensures Flatten.HasShape(Pruned(bundle, e))
    ensures Inside(Flatten.Defs(Pruned(bundle, e))["v2"], Flatten.Defs(bundle)["v2"])
    ensures forall n :: n in Flatten.V2Defs(Pruned(bundle, e)) <==>
      n in Flatten.V2Defs(bundle) && !(IsNamespaceMap(Flatten.Defs(bundle)["v2"]) && Gone(e, n))
  {
    PrunedShape(bundle, e);
    TrimmedV2(bundle, e);
    var v := Trimmed(bundle, e).members["v2"];
    if IsNamespaceMap(v) {
      RemoveTypesLess(v, e);
      InsideAgain(RemoveTypes(v, e), v, Flatten.Defs(bundle)["v2"]);
    }
  }

  // ----- closedness

  /** A ref to a type that pruning takes out. */
  predicate Cut(bundle: Value, e: Experimental, r: string)
    requires Flatten.HasShape(bundle)
  {
    || (RootRef(r, Flatten.Defs(bundle)) && Gone(e, r[|DEFS|..]))
    || (V2Ref(r, Flatten.V2Defs(bundle)) && IsNamespaceMap(Flatten.Defs(bundle)["v2"]) && Gone(e, r[|V2|..]))
  }

  lemma RootOrV2(r: string, defs: map<string, Value>, v2: map<string, Value>)
    ensures !(RootRef(r, defs) && V2Ref(r, v2)) && !(Foreign(r) && DEFS <= r)
  {
    if V2 <= r { assert r[|DEFS|..][2] == '/'; }
  }

  lemma CutIff(bundle: Value, e: Experimental, r: string)
    requires Flatten.HasShape(bundle) && !Gone(e, "v2") && Flatten.HasShape(Pruned(bundle, e))
    requires RootRef(r, Flatten.Defs(bundle)) || V2Ref(r, Flatten.V2Defs(bundle))
    ensures !Foreign(r)
    ensures RootRef(r, Flatten.Defs(bundle)) ==>
      && !V2Ref(r, Flatten.V2Defs(Pruned(bundle, e)))
      && (RootRef(r, Flatten.Defs(Pruned(bundle, e))) <==> !Cut(bundle, e, r))
    ensures V2Ref(r, Flatten.V2Defs(bundle)) ==>
      && !RootRef(r, Flatten.Defs(Pruned(bundle, e)))
      && (V2Ref(r, Flatten.V2Defs(Pruned(bundle, e))) <==> !Cut(bundle, e, r))
  {
    PrunedShape(bundle, e);
    PrunedV2(bundle, e);
    RootOrV2(r, Flatten.Defs(bundle), Flatten.V2Defs(bundle));
  }

  /** A closed bundle is closed after pruning exactly when no ref that survives names a type taken out. */
  lemma {:induction false} PrunedClosedIff(bundle: Value, e: Experimental)
    requires Flatten.HasShape(bundle) && ClosedBundle(bundle) && !Gone(e, "v2")
    ensures Flatten.HasShape(Pruned(bundle, e))
    ensures ClosedBundle(Pruned(bundle, e)) <==>
      forall r | r in Refs(Pruned(bundle, e).members["definitions"]) :: !Cut(bundle, e, r)
  {
    var p := Pruned(bundle, e);
    PrunedShape(bundle, e);
    PrunedV2(bundle, e);
    PrunedAround(bundle, e);
    forall r | r in Refs(p.members["definitions"]) ensures ClosedBundle(p) ==> !Cut(bundle, e, r) {
      if ClosedBundle(p) { ClosedNotCut(bundle, e, r); }
    }
    if forall r | r in Refs(p.members["definitions"]) :: !Cut(bundle, e, r) {
      UncutClosed(bundle, e);
    }
  }

  lemma PrunedAround(bundle: Value, e: Experimental)
    requires Flatten.HasShape(bundle) && ClosedBundle(bundle) && !Gone(e, "v2")
    ensures Flatten.HasShape(Pruned(bundle, e))
    ensures forall r | r in Refs(Object(Pruned(bundle, e).members - {"definitions"})) :: Foreign(r)
    ensures OwnRef(Flatten.Defs(Pruned(bundle, e))).None? && OwnRef(Flatten.V2Defs(Pruned(bundle, e))).None?
  {
    PrunedShape(bundle, e);
    PrunedV2(bundle, e);
    AroundDefs(Pruned(bundle, e), bundle);
  }

  /** Where the refs of the definitions sit. */
  lemma DefsRefsAt(bundle: Value, r: string) returns (k: string)
    requires Flatten.HasShape(bundle) && r in Refs(bundle.members["definitions"])
    requires OwnRef(Flatten.Defs(bundle)).None? && OwnRef(Flatten.V2Defs(bundle)).None?
    ensures (k in Flatten.Defs(bundle) && k != "v2" && r in Refs(Flatten.Defs(bundle)[k]))
      || (k in Flatten.V2Defs(bundle) && r in Refs(Flatten.V2Defs(bundle)[k]))
  {
    var defs := Flatten.Defs(bundle);
    assert bundle.members["definitions"] == Object(defs);
    k :| k in defs && r in Refs(defs[k]);
    if k == "v2" {
      var v2 := Flatten.V2Defs(bundle);
      assert defs["v2"] == Object(v2);
      k :| k in v2 && r in Refs(v2[k]);
    }
  }

  lemma ClosedNotCut(bundle: Value, e: Experimental, r: string)
    requires Flatten.HasShape(bundle) && ClosedBundle(bundle) && !Gone(e, "v2")
    requires Flatten.HasShape(Pruned(bundle, e)) && ClosedBundle(Pruned(bundle, e))
    requires r in Refs(Pruned(bundle, e).members["definitions"])
    ensures !Cut(bundle, e, r)
  {
    var k := DefsRefsAt(Pruned(bundle, e), r);
    if Cut(bundle, e, r) { CutIff(bundle, e, r); }
  }

  lemma UncutClosed(bundle: Value, e: Experimental)
    requires Flatten.HasShape(bundle) && ClosedBundle(bundle) && !Gone(e, "v2")
    requires Flatten.HasShape(Pruned(bundle, e))
    requires forall r | r in Refs(Pruned(bundle, e).members["definitions"]) :: !Cut(bundle, e, r)
    ensures ClosedBundle(Pruned(bundle, e))
  {
    var p := Pruned(bundle, e);
    PrunedShape(bundle, e);
    PrunedV2(bundle, e);
    PrunedAround(bundle, e);
    var defs, v2 := Flatten.Defs(p), Flatten.V2Defs(p);
    assert p.members["definitions"] == Object(defs) && defs["v2"] == Object(v2);
    forall k, r | k in defs && k != "v2" && r in Refs(defs[k]) ensures Foreign(r) || RootRef(r, defs) || V2Ref(r, v2) {
      assert r in Refs(Flatten.Defs(bundle)[k]) && r in Refs(p.members["definitions"]);
      if !Foreign(r) { CutIff(bundle, e, r); }
    }
    forall k, r | k in v2 && r in Refs(v2[k]) ensures Foreign(r) || V2Ref(r, v2) {
      assert r in Refs(Flatten.V2Defs(bundle)[k]) && r in Refs(defs["v2"]) && r in Refs(p.members["definitions"]);
      if !Foreign(r) { CutIff(bundle, e, r); }
    }
  }

  // ----- flattening

  lemma NonV2RefsShrink(a: Value, b: Value)
    requires Less(a, b)
    ensures Flatten.NonV2Refs(a) <= Flatten.NonV2Refs(b)
  {
    forall n | n in Flatten.NonV2Refs(a) ensures n in Flatten.NonV2Refs(b) {
      var r :| r in Refs(a) && DEFS <= r && !(V2 <= r) && r[|DEFS|..] == n;
    }
  }

  lemma DependenciesShrink(a: map<string, Value>, b: map<string, Value>)
    requires Inside(Object(a), Object(b))
    ensures Flatten.Dependencies(a) <= Flatten.Dependencies(b)
  {
    var all := Flatten.Dependencies(b);
    Closure.LeastIsLeast(Flatten.RefGraph(b), Flatten.SharedRefs(b));
    Closure.LeastIsLeast(Flatten.RefGraph(a), Flatten.SharedRefs(a));
    forall m | m in Flatten.SharedRefs(a) ensures m in all {
      var k :| k in Flatten.SHARED && k in a && m in Flatten.NonV2Refs(a[k]);
      NonV2RefsShrink(a[k], b[k]);
      assert m in Flatten.SharedRefs(b);
    }
    forall n, m | n in all && m in Closure.Successors(Flatten.RefGraph(a), n) ensures m in all {
      NonV2RefsShrink(a[n], b[n]);
      assert m in Closure.Successors(Flatten.RefGraph(b), n);
    }
    assert Closure.Closed(Flatten.RefGraph(a), all);
  }

  /** Pruning carries over no more than before. */
  lemma CarriedShrinks(bundle: Value, e: Experimental, n: string)
    requires Flatten.HasShape(bundle) && Flatten.HasShape(Pruned(bundle, e)) && Carried(Pruned(bundle, e), n)
    ensures Carried(bundle, n)
  {
    PrunedShape(bundle, e);
    DependenciesShrink(Flatten.Defs(Pruned(bundle, e)), Flatten.Defs(bundle));
  }

  lemma ApartAgain(bundle: Value, e: Experimental)
    requires Flatten.HasShape(bundle) && Apart(bundle) && !Gone(e, "v2")
    ensures Flatten.HasShape(Pruned(bundle, e)) && Apart(Pruned(bundle, e))
  {
    PrunedV2(bundle, e);
    forall n | n in Flatten.V2Defs(Pruned(bundle, e)) ensures !Carried(Pruned(bundle, e), n) {
      if Carried(Pruned(bundle, e), n) { CarriedShrinks(bundle, e, n); }
    }
  }

  /** A ref of a flat definition of the pruned bundle, before flattening. */
  lemma FlatRefWas(bundle: Value, e: Experimental, n: string, r: string)
    requires Flatten.HasShape(bundle) && ClosedBundle(bundle) && Apart(bundle) && !Gone(e, "v2")
    requires Flatten.HasShape(Pruned(bundle, e))
    requires n in FlatDefs(Pruned(bundle, e)) && r in Refs(FlatDefs(Pruned(bundle, e))[n])
    ensures Foreign(r) || V2Ref(r, Flatten.V2Defs(bundle))
      || (RootRef(r, Flatten.Defs(bundle)) && Carried(Pruned(bundle, e), n) && Carried(bundle, r[|DEFS|..])
          && r in Refs(Flatten.Defs(Pruned(bundle, e))[n]))
  {
    ApartAgain(bundle, e);
    FlatDefsOrigin(Pruned(bundle, e), n);
    if n in Flatten.V2Defs(Pruned(bundle, e)) {
      PrunedV2(bundle, e);
      assert r in Refs(Flatten.V2Defs(bundle)[n]);
    } else {
      CarriedRefWas(bundle, e, n, r);
    }
  }

  lemma CarriedRefWas(bundle: Value, e: Experimental, n: string, r: string)
    requires Flatten.HasShape(bundle) && ClosedBundle(bundle)
    requires Flatten.HasShape(Pruned(bundle, e)) && Carried(Pruned(bundle, e), n)
    requires r in Refs(Flatten.Defs(Pruned(bundle, e))[n])
    ensures Foreign(r) || V2Ref(r, Flatten.V2Defs(bundle))
      || (RootRef(r, Flatten.Defs(bundle)) && Carried(bundle, r[|DEFS|..]))
  {
    PrunedShape(bundle, e);
    CarriedShrinks(bundle, e, n);
    assert r in Refs(Flatten.Defs(bundle)[n]);
    if RootRef(r, Flatten.Defs(bundle)) { CarriedClosed(bundle, n, r); }
  }

  lemma V2RefMetIff(bundle: Value, e: Experimental, r: string)
    requires Flatten.HasShape(bundle) && !Gone(e, "v2") && Flatten.HasShape(Pruned(bundle, e))
    requires V2Ref(r, Flatten.V2Defs(bundle))
    ensures Met(Pruned(bundle, e), r) <==> !Cut(bundle, e, r)
  {
    var p, n := Pruned(bundle, e), r[|V2|..];
    PrunedShape(bundle, e);
    PrunedV2(bundle, e);
    FlatDefsOrigin(p, n);
    MetInV2(p, r);
    CutIff(bundle, e, r);
    if Met(p, r) { MetName(p, r, n); }
  }

  lemma RootRefMetIff(bundle: Value, e: Experimental, n: string, r: string)
    requires Flatten.HasShape(bundle) && Apart(bundle) && !Gone(e, "v2") && Flatten.HasShape(Pruned(bundle, e))
    requires RootRef(r, Flatten.Defs(bundle)) && Carried(Pruned(bundle, e), n) && Carried(bundle, r[|DEFS|..])
    requires r in Refs(Flatten.Defs(Pruned(bundle, e))[n])
    ensures Met(Pruned(bundle, e), r) <==> !Cut(bundle, e, r)
  {
    var p := Pruned(bundle, e);
    RootOrV2(r, Flatten.Defs(bundle), Flatten.V2Defs(bundle));
    CutIff(bundle, e, r);
    if Cut(bundle, e, r) { CutRootUnmet(bundle, e, r); } else { MetAtRoot(p, n, r); }
  }

  lemma CutRootUnmet(bundle: Value, e: Experimental, r: string)
    requires Flatten.HasShape(bundle) && Apart(bundle) && !Gone(e, "v2") && Flatten.HasShape(Pruned(bundle, e))
    requires RootRef(r, Flatten.Defs(bundle)) && Carried(bundle, r[|DEFS|..]) && Gone(e, r[|DEFS|..]) && !Foreign(r)
    ensures !Met(Pruned(bundle, e), r)
  {
    assert r == DEFS + r[|DEFS|..];
    FlattenRoot(r[|DEFS|..]);
    GoneNotFlat(bundle, e, r[|DEFS|..]);
    if Met(Pruned(bundle, e), r) { MetName(Pruned(bundle, e), r, r[|DEFS|..]); }
  }

  lemma GoneNotFlat(bundle: Value, e: Experimental, m: string)
    requires Flatten.HasShape(bundle) && Apart(bundle) && !Gone(e, "v2") && Flatten.HasShape(Pruned(bundle, e))
    requires Carried(bundle, m) && Gone(e, m)
    ensures m !in FlatDefs(Pruned(bundle, e))
  {
    PrunedShape(bundle, e);
    PrunedV2(bundle, e);
    FlatDefsOrigin(Pruned(bundle, e), m);
  }

  lemma PrunedMetIff(bundle: Value, e: Experimental, n: string, r: string)
    requires Flatten.HasShape(bundle) && ClosedBundle(bundle) && Apart(bundle) && !Gone(e, "v2")
    requires Flatten.HasShape(Pruned(bundle, e))
    requires n in FlatDefs(Pruned(bundle, e)) && r in Refs(FlatDefs(Pruned(bundle, e))[n])
    ensures PlainRef(r)
    ensures Met(Pruned(bundle, e), r) <==> !Cut(bundle, e, r)
  {
    FlatRefWas(bundle, e, n, r);
    if V2Ref(r, Flatten.V2Defs(bundle)) {
      V2RefMetIff(bundle, e, r);
    } else if RootRef(r, Flatten.Defs(bundle)) {
      RootRefMetIff(bundle, e, n, r);
    } else {
      RootOrV2(r, Flatten.Defs(bundle), Flatten.V2Defs(bundle));
    }
  }

  lemma MetName(bundle: Value, r: string, n: string)
    requires Flatten.HasShape(bundle) && Met(bundle, r) && !Foreign(r) && Flatten.FlattenRef(r) == DEFS + n
    ensures n in FlatDefs(bundle)
  {
    var m :| PlainName(m) && m in FlatDefs(bundle) && DEFS + n == DEFS + m;
    assert n == (DEFS + n)[|DEFS|..] == m;
  }

  /** No ref of a flat definition names a type taken out. */
  ghost predicate NothingCut(bundle: Value, e: Experimental)
    requires Flatten.HasShape(bundle) && Flatten.HasShape(Pruned(bundle, e))
  {
    forall n, r | n in FlatDefs(Pruned(bundle, e)) && r in Refs(FlatDefs(Pruned(bundle, e))[n]) :: !Cut(bundle, e, r)
  }

  lemma AllPlain(bundle: Value, e: Experimental)
    requires Flatten.HasShape(bundle) && ClosedBundle(bundle) && Apart(bundle) && !Gone(e, "v2")
    requires Flatten.HasShape(Pruned(bundle, e))
    ensures forall n, r | n in FlatDefs(Pruned(bundle, e)) && r in Refs(FlatDefs(Pruned(bundle, e))[n]) :: PlainRef(r)
  {
    var p := Pruned(bundle, e);
    forall n, r | n in FlatDefs(p) && r in Refs(FlatDefs(p)[n]) ensures PlainRef(r) {
      PrunedMetIff(bundle, e, n, r);
    }
  }

  lemma MetNothingCut(bundle: Value, e: Experimental)
    requires Flatten.HasShape(bundle) && ClosedBundle(bundle) && Apart(bundle) && !Gone(e, "v2")
    requires Flatten.HasShape(Pruned(bundle, e)) && AllMet(Pruned(bundle, e))
    ensures NothingCut(bundle, e)
  {
    var p := Pruned(bundle, e);
    forall n, r | n in FlatDefs(p) && r in Refs(FlatDefs(p)[n]) ensures !Cut(bundle, e, r) {
      PrunedMetIff(bundle, e, n, r);
    }
  }

  lemma NothingCutMet(bundle: Value, e: Experimental)
    requires Flatten.HasShape(bundle) && ClosedBundle(bundle) && Apart(bundle) && !Gone(e, "v2")
    requires Flatten.HasShape(Pruned(bundle, e)) && NothingCut(bundle, e)
    ensures AllMet(Pruned(bundle, e))
  {
    var p := Pruned(bundle, e);
    forall n, r | n in FlatDefs(p) && r in Refs(FlatDefs(p)[n]) ensures Met(p, r) {
      PrunedMetIff(bundle, e, n, r);
    }
  }

  /** What is left of a closed bundle flattens exactly when no ref of a flat definition names a type taken
      out. */
  lemma {:induction false} PrunedFlattensIff(bundle: Value, e: Experimental)
    requires Flatten.HasShape(bundle) && ClosedBundle(bundle) && Apart(bundle) && !Gone(e, "v2")
    ensures Flatten.HasShape(Pruned(bundle, e))
    ensures Flatten.FlatV2Schema(Pruned(bundle, e)).Ok? <==> NothingCut(bundle, e)
  {
    PrunedAround(bundle, e);
    FlatDefsOrigin(Pruned(bundle, e), REF);
    AllPlain(bundle, e);
    FlatteningSucceedsIff(Pruned(bundle, e));
    if NothingCut(bundle, e) {
      NothingCutMet(bundle, e);
    } else if AllMet(Pruned(bundle, e)) {
      MetNothingCut(bundle, e);
    }
  }

  // ----- a type still referred to

  /** `ClientRequest` refers to the v2 type `T`. */
  function Referring(): Value
  {
    Object(map["definitions" := Object(map[
      "ClientRequest" := Object(map[REF := String(V2 + "T")]),
      "v2" := Object(map["T" := Object(map[])])])])
  }

  /** `T` is experimental. */
  const OUTDATED := Experimental([], {}, {"T"})

  lemma ReferringShape()
    ensures Flatten.HasShape(Referring()) && Flatten.Defs(Referring()).Keys == {"ClientRequest", "v2"}
    ensures Flatten.Defs(Referring())["ClientRequest"] == Object(map[REF := String(V2 + "T")])
    ensures Flatten.V2Defs(Referring()) == map["T" := Object(map[])]
    ensures Refs(Flatten.Defs(Referring())["ClientRequest"]) == {V2 + "T"} && Refs(Object(map[])) == {}
  {
  }

  lemma OnlyTGone(n: string)
    ensures Gone(OUTDATED, "T")
    ensures |n| > 1 && n[|n| - 2] != ':' ==> !Gone(OUTDATED, n)
  {
    assert Matches("T", "T");
    if Matches(n, "T") && |n| > 1 {
      assert n[|n| - 3..] == "::" + "T";
      assert n[|n| - 2] == ("::" + "T")[1];
    }
  }

  lemma ReferringClosed()
    ensures Flatten.HasShape(Referring()) && ClosedBundle(Referring())
  {
    ReferringShape();
    assert Referring().members - {"definitions"} == map[];
    assert (V2 + "T")[|V2|..] == "T";
  }

  lemma ReferringApart()
    ensures Flatten.HasShape(Referring()) && Apart(Referring())
  {
    ReferringShape();
    NothingElse(Flatten.Defs(Referring()));
    assert "T" !in Flatten.Defs(Referring());
  }

  lemma NothingElse(defs: map<string, Value>)
    requires defs.Keys == {"ClientRequest", "v2"} && Refs(defs["ClientRequest"]) == {V2 + "T"}
    ensures Flatten.Dependencies(defs) == {}
  {
    assert Flatten.SharedRefs(defs) == {};
    Closure.LeastIsLeast(Flatten.RefGraph(defs), {});
    assert Closure.Closed(Flatten.RefGraph(defs), {});
  }

  /** A definition in which nothing is experimental stays as it is. */
  lemma KeptAt(bundle: Value, e: Experimental, k: string, v: Value)
    requires Flatten.HasDefinitions(bundle) && k in Flatten.Defs(bundle) && Flatten.Defs(bundle)[k] == v
    requires e.fields == [] && !Gone(e, k) && !IsNamespaceMap(v) && PruneMethods(v, e.Tags()) == v
    ensures Flatten.HasDefinitions(Pruned(bundle, e))
    ensures k in Flatten.Defs(Pruned(bundle, e)) && Flatten.Defs(Pruned(bundle, e))[k] == v
  {
    PrunedShape(bundle, e);
    assert Trimmed(bundle, e).members[k] == v;
  }

  lemma ReferrerUntouched(v: Value, methods: set<string>)
    requires v == Object(map[REF := String(V2 + "T")])
    ensures !IsNamespaceMap(v) && PruneMethods(v, methods) == v
  {
    assert REF in v.members && REF[0] == '$';
    assert PruneMethods(v, methods).members == v.members;
  }

  lemma ReferrerKept()
    ensures Flatten.HasShape(Pruned(Referring(), OUTDATED))
    ensures var defs := Flatten.Defs(Pruned(Referring(), OUTDATED));
      "ClientRequest" in defs && defs["ClientRequest"] == Object(map[REF := String(V2 + "T")])
  {
    var v := Object(map[REF := String(V2 + "T")]);
    ReferringShape();
    OnlyTGone("v2");
    OnlyTGone("ClientRequest");
    PrunedV2(Referring(), OUTDATED);
    ReferrerUntouched(v, OUTDATED.Tags());
    KeptAt(Referring(), OUTDATED, "ClientRequest", v);
  }

  lemma CutAt(bundle: Value, e: Experimental, k: string, r: string)
    requires Flatten.HasShape(bundle) && Flatten.HasShape(Pruned(bundle, e)) && k in Flatten.SHARED
    requires k in Flatten.Defs(Pruned(bundle, e)) && k != "v2" && r in Refs(Flatten.Defs(Pruned(bundle, e))[k])
    requires Cut(bundle, e, r)
    ensures !NothingCut(bundle, e) && r in Refs(Pruned(bundle, e).members["definitions"])
  {
    var p := Pruned(bundle, e);
    assert Carried(p, k);
    FlatDefsOrigin(p, k);
    assert p.members["definitions"] == Object(Flatten.Defs(p));
  }

  /** Pruning can break a closed bundle: a schema still refers to a type taken out, and flattening fails. */
  lemma {:induction false} PruningDangles()
    ensures var bundle := Referring();
      && Flatten.HasShape(bundle) && ClosedBundle(bundle) && Apart(bundle) && !Gone(OUTDATED, "v2")
      && Flatten.HasShape(Pruned(bundle, OUTDATED)) && !ClosedBundle(Pruned(bundle, OUTDATED))
      && Flatten.FlatV2Schema(Pruned(bundle, OUTDATED)).Err?
  {
    ReferringShape();
    ReferringClosed();
    ReferringApart();
    ReferrerKept();
    OnlyTGone("v2");
    TIsCut();
    assert Flatten.SHARED[0] == "ClientRequest";
    CutAt(Referring(), OUTDATED, "ClientRequest", V2 + "T");
    PrunedClosedIff(Referring(), OUTDATED);
    PrunedFlattensIff(Referring(), OUTDATED);
  }

  lemma TIsCut()
    ensures Flatten.HasShape(Referring()) && Cut(Referring(), OUTDATED, V2 + "T")
  {
    ReferringShape();
    OnlyTGone("T");
    assert (V2 + "T")[|V2|..] == "T";
  }
}
