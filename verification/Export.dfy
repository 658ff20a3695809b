/** Merging schemas that are closed on their own and flattening the bundle: when the bundle is closed,
    when flattening succeeds, and when every reference keeps its meaning. */
module Export {
  import opened Json
  import opened Pointer
  import opened Bundle
  import opened FlattenProofs
  import opened ExportRefs
  import opened Wrappers
  import Closure
  import Flatten

  // ----- closed bundles

  lemma NoRefAtRoot(schemas: seq<Schema>, annotate: (Value, string) -> Value, defs: Definitions)
    requires Built(schemas, annotate, defs)
    ensures REF !in defs
  {
    if REF in defs {
      var i := RootSource(schemas, annotate, defs, REF);
      RootName(schemas[i], NamespacedTypes(schemas), REF);
    }
  }

  lemma BundleRefs(defs: Definitions)
    ensures Refs(Object(BundleOf(defs).members - {"definitions"})) == {}
  {
  }

  lemma ExportedAround(schemas: seq<Schema>, annotate: (Value, string) -> Value, defs: Definitions)
    requires Built(schemas, annotate, defs)
    ensures "v2" in defs && defs["v2"].Object?
    ensures Flatten.HasShape(BundleOf(defs)) && PlainAround(BundleOf(defs))
    ensures OwnRef(defs).None? && OwnRef(defs["v2"].members).None?
  {
    V2Exists(schemas, annotate, defs);
    Shape(defs);
    BundleRefs(defs);
    NoRefAtRoot(schemas, annotate, defs);
    if REF in defs["v2"].members { V2Name(schemas, annotate, defs, REF); }
    FlatDefsOrigin(BundleOf(defs), REF);
  }

  lemma ExportedClosed(schemas: seq<Schema>, annotate: (Value, string) -> Value, defs: Definitions)
    requires Built(schemas, annotate, defs) && Unnumbered(schemas)
    ensures Flatten.HasShape(BundleOf(defs)) && ClosedBundle(BundleOf(defs))
  {
    ExportedAround(schemas, annotate, defs);
    BundleRefs(defs);
    var v2 := defs["v2"].members;
    forall k, r | k in defs && k != "v2" && r in Refs(defs[k]) ensures Foreign(r) || RootRef(r, defs) || V2Ref(r, v2) {
      var i, x := RootTarget(schemas, annotate, defs, k, r);
    }
    forall k, r | k in v2 && r in Refs(v2[k]) ensures Foreign(r) || V2Ref(r, v2) {
      V2Closed(schemas, annotate, defs, k, r);
    }
  }

  /** Schemas each closed on their own merge into a closed bundle exactly when nothing that ends up at
      the root refers to a numbered name. */
  lemma {:induction false} ExportClosedIff(schemas: seq<Schema>, annotate: (Value, string) -> Value, defs: Definitions)
    requires Built(schemas, annotate, defs)
    ensures Flatten.HasShape(BundleOf(defs))
    ensures ClosedBundle(BundleOf(defs)) <==> Unnumbered(schemas)
  {
    ExportedAround(schemas, annotate, defs);
    if Unnumbered(schemas) {
      ExportedClosed(schemas, annotate, defs);
    } else {
      var types := NamespacedTypes(schemas);
      var i: nat, k, x :| LastWriter(schemas, types, i, k) && x in Refs(Part(schemas[i], k)) && Numbered(types, x);
      NumberedTarget(schemas, annotate, defs, i, k, x);
    }
  }

  // ----- names

  lemma PlainRefApart(schemas: seq<Schema>, annotate: (Value, string) -> Value, defs: Definitions, k: string, m: string)
    requires Built(schemas, annotate, defs)
    requires "v2" in defs && defs["v2"].Object? && k in defs && k != "v2" && m in Flatten.NonV2Refs(defs[k])
    ensures m !in NamespacedTypes(schemas) && m != "v2"
  {
    var r :| r in Refs(defs[k]) && DEFS <= r && !(V2 <= r) && r[|DEFS|..] == m;
    var i, x := RootTarget(schemas, annotate, defs, k, r);
  }

  /** Root refs never name a type of v2, so nothing flattening carries over is named like one. */
  lemma DependenciesApart(schemas: seq<Schema>, annotate: (Value, string) -> Value, defs: Definitions)
    requires Built(schemas, annotate, defs)
    requires "v2" in defs && defs["v2"].Object?
    ensures Flatten.Dependencies(defs) !! NamespacedTypes(schemas).Keys
  {
    var g, roots := Flatten.RefGraph(defs), Flatten.SharedRefs(defs);
    var apart := Closure.Universe(g, roots) - NamespacedTypes(schemas).Keys - {"v2"};
    forall m | m in roots ensures m in apart {
      var k :| k in Flatten.SHARED && k in defs && m in Flatten.NonV2Refs(defs[k]);
      PlainRefApart(schemas, annotate, defs, k, m);
    }
    forall k, m | k in apart && m in Closure.Successors(g, k) ensures m in apart {
      PlainRefApart(schemas, annotate, defs, k, m);
    }
    assert Closure.Closed(g, apart);
    Closure.LeastIsLeast(g, roots);
  }

  /** No name is used both in v2 and by a definition that flattening carries over. */
  lemma CarriedApart(schemas: seq<Schema>, annotate: (Value, string) -> Value, defs: Definitions, n: string)
    requires Built(schemas, annotate, defs) && Flatten.HasShape(BundleOf(defs)) && Carried(BundleOf(defs), n)
    ensures n !in Flatten.V2Defs(BundleOf(defs))
    ensures n in FlatDefs(BundleOf(defs)) && FlatDefs(BundleOf(defs))[n] == defs[n]
  {
    Shape(defs);
    DependenciesApart(schemas, annotate, defs);
    if n in Flatten.V2Defs(BundleOf(defs)) { V2Name(schemas, annotate, defs, n); }
    FlatDefsOrigin(BundleOf(defs), n);
  }

  lemma ExportedApart(schemas: seq<Schema>, annotate: (Value, string) -> Value, defs: Definitions)
    requires Built(schemas, annotate, defs) && Flatten.HasShape(BundleOf(defs))
    ensures Apart(BundleOf(defs)) && NoClash(BundleOf(defs))
  {
    forall n | n in Flatten.V2Defs(BundleOf(defs)) ensures !Carried(BundleOf(defs), n) {
      if Carried(BundleOf(defs), n) { CarriedApart(schemas, annotate, defs, n); }
    }
  }

  // ----- flattening

  /** Each ref a carried definition made to a numbered name leads to a flat definition all the same. */
  ghost predicate NumberedMet(schemas: seq<Schema>, bundle: Value)
    requires Flatten.HasShape(bundle)
  {
    var types := NamespacedTypes(schemas);
    forall i: nat, k, x |
      LastWriter(schemas, types, i, k) && Carried(bundle, k) && x in Refs(Part(schemas[i], k)) && Numbered(types, x) ::
      x[|DEFS|..] in FlatDefs(bundle)
  }

  /** No carried definition refers to a numbered name. */
  ghost predicate CarriedUnnumbered(schemas: seq<Schema>, bundle: Value)
    requires Flatten.HasShape(bundle)
  {
    var types := NamespacedTypes(schemas);
    forall i: nat, k, x | LastWriter(schemas, types, i, k) && Carried(bundle, k) && x in Refs(Part(schemas[i], k)) ::
      !Numbered(types, x)
  }

  /** A carried definition's ref to a definition at the root. */
  ghost predicate ToRoot(bundle: Value, n: string, r: string)
    requires Flatten.HasShape(bundle)
  {
    Carried(bundle, n) && r in Refs(Flatten.Defs(bundle)[n]) && RootRef(r, Flatten.Defs(bundle))
  }

  /** A ref into v2 that a carried definition made to a numbered name. */
  ghost predicate ToNumbered(schemas: seq<Schema>, bundle: Value, n: string, r: string, i: nat, x: string)
    requires Flatten.HasShape(bundle)
  {
    var types := NamespacedTypes(schemas);
    && Carried(bundle, n) && LastWriter(schemas, types, i, n) && x in Refs(Part(schemas[i], n)) && Numbered(types, x)
    && r == V2 + x[|DEFS|..] && PlainName(x[|DEFS|..])
  }

  lemma FlatTarget(schemas: seq<Schema>, annotate: (Value, string) -> Value, defs: Definitions, n: string, r: string)
    returns (i: nat, x: string)
    requires Built(schemas, annotate, defs) && Flatten.HasShape(BundleOf(defs))
    requires n in FlatDefs(BundleOf(defs)) && r in Refs(FlatDefs(BundleOf(defs))[n])
    ensures Foreign(r) || V2Ref(r, Flatten.V2Defs(BundleOf(defs)))
      || ToRoot(BundleOf(defs), n, r) || ToNumbered(schemas, BundleOf(defs), n, r, i, x)
  {
    Shape(defs);
    FlatDefsOrigin(BundleOf(defs), n);
    if Carried(BundleOf(defs), n) {
      CarriedApart(schemas, annotate, defs, n);
      i, x := RootTarget(schemas, annotate, defs, n, r);
    } else {
      V2Closed(schemas, annotate, defs, n, r);
      i, x := 0, "";
    }
  }

  lemma TargetPlain(schemas: seq<Schema>, bundle: Value, n: string, r: string, i: nat, x: string)
    requires Flatten.HasShape(bundle)
    requires Foreign(r) || V2Ref(r, Flatten.V2Defs(bundle))
      || ToRoot(bundle, n, r) || ToNumbered(schemas, bundle, n, r, i, x)
    ensures PlainRef(r)
    ensures NumberedMet(schemas, bundle) ==> Met(bundle, r)
  {
    if Foreign(r) {
    } else if V2Ref(r, Flatten.V2Defs(bundle)) {
      FlatDefsOrigin(bundle, r[|V2|..]);
      MetInV2(bundle, r);
    } else if ToRoot(bundle, n, r) {
      MetAtRoot(bundle, n, r);
    } else {
      assert r[|V2|..] == x[|DEFS|..];
      MetInV2(bundle, r);
    }
  }

  lemma FlatRefPlain(schemas: seq<Schema>, annotate: (Value, string) -> Value, defs: Definitions, n: string, r: string)
    requires Built(schemas, annotate, defs) && Flatten.HasShape(BundleOf(defs))
    requires n in FlatDefs(BundleOf(defs)) && r in Refs(FlatDefs(BundleOf(defs))[n])
    ensures PlainRef(r)
    ensures NumberedMet(schemas, BundleOf(defs)) ==> Met(BundleOf(defs), r)
  {
    var i, x := FlatTarget(schemas, annotate, defs, n, r);
    TargetPlain(schemas, BundleOf(defs), n, r, i, x);
  }

  lemma NumberedUnmet(schemas: seq<Schema>, annotate: (Value, string) -> Value, defs: Definitions, i: nat, k: string,
                      x: string)
    requires Built(schemas, annotate, defs) && Flatten.HasShape(BundleOf(defs)) && Carried(BundleOf(defs), k)
    requires LastWriter(schemas, NamespacedTypes(schemas), i, k) && x in Refs(Part(schemas[i], k))
    requires Numbered(NamespacedTypes(schemas), x)
    ensures k in FlatDefs(BundleOf(defs)) && V2 + x[|DEFS|..] in Refs(FlatDefs(BundleOf(defs))[k])
    ensures PlainName(x[|DEFS|..]) && !Foreign(V2 + x[|DEFS|..])
    ensures x[|DEFS|..] !in Flatten.V2Defs(BundleOf(defs))
    ensures Met(BundleOf(defs), V2 + x[|DEFS|..]) ==> x[|DEFS|..] in FlatDefs(BundleOf(defs))
  {
    var bundle, n := BundleOf(defs), x[|DEFS|..];
    Shape(defs);
    NumberedTarget(schemas, annotate, defs, i, k, x);
    CarriedApart(schemas, annotate, defs, k);
    assert (V2 + n)[|V2|..] == n;
    MetInV2(bundle, V2 + n);
    if Met(bundle, V2 + n) {
      var m :| PlainName(m) && m in FlatDefs(bundle) && DEFS + n == DEFS + m;
      assert n == (DEFS + n)[|DEFS|..] == m;
    }
  }

  /** Flattening the merged bundle succeeds exactly when each ref a carried definition made to a numbered
      name happens to lead to a flat definition. */
  lemma {:induction false} ExportFlattensIff(schemas: seq<Schema>, annotate: (Value, string) -> Value,
                                             defs: Definitions)
    requires Built(schemas, annotate, defs)
    ensures Flatten.HasShape(BundleOf(defs))
    ensures Flatten.FlatV2Schema(BundleOf(defs)).Ok? <==> NumberedMet(schemas, BundleOf(defs))
  {
    var bundle := BundleOf(defs);
    ExportedAround(schemas, annotate, defs);
    forall n, r | n in FlatDefs(bundle) && r in Refs(FlatDefs(bundle)[n]) ensures PlainRef(r) {
      FlatRefPlain(schemas, annotate, defs, n, r);
    }
    FlatteningSucceedsIff(bundle);
    AllMetIff(schemas, annotate, defs);
  }

  lemma AllMetIff(schemas: seq<Schema>, annotate: (Value, string) -> Value, defs: Definitions)
    requires Built(schemas, annotate, defs) && Flatten.HasShape(BundleOf(defs))
    ensures AllMet(BundleOf(defs)) <==> NumberedMet(schemas, BundleOf(defs))
  {
    var bundle := BundleOf(defs);
    if NumberedMet(schemas, bundle) {
      forall n, r | n in FlatDefs(bundle) && r in Refs(FlatDefs(bundle)[n]) ensures Met(bundle, r) {
        FlatRefPlain(schemas, annotate, defs, n, r);
      }
    } else {
      var types := NamespacedTypes(schemas);
      var i: nat, k, x :| LastWriter(schemas, types, i, k) && Carried(bundle, k) && x in Refs(Part(schemas[i], k))
        && Numbered(types, x) && x[|DEFS|..] !in FlatDefs(bundle);
      NumberedUnmet(schemas, annotate, defs, i, k, x);
    }
  }

  // ----- meaning

  /** Every reference of every flat definition resolves to the rewritten form of what it meant. */
  ghost predicate AllPreserved(bundle: Value)
    requires Flatten.HasShape(bundle)
  {
    forall n, r | n in FlatDefs(bundle) && r in Refs(FlatDefs(bundle)[n]) && !Foreign(r) ::
      Preserved(bundle, Flatten.Flattened(bundle), r)
  }

  lemma FlatRefPreserved(schemas: seq<Schema>, annotate: (Value, string) -> Value, defs: Definitions, n: string,
                         r: string)
    requires Built(schemas, annotate, defs) && Flatten.HasShape(BundleOf(defs)) && PlainAround(BundleOf(defs))
    requires CarriedUnnumbered(schemas, BundleOf(defs))
    requires n in FlatDefs(BundleOf(defs)) && r in Refs(FlatDefs(BundleOf(defs))[n]) && !Foreign(r)
    ensures Preserved(BundleOf(defs), Flatten.Flattened(BundleOf(defs)), r)
  {
    var bundle := BundleOf(defs);
    Shape(defs);
    var i, x := FlatTarget(schemas, annotate, defs, n, r);
    ExportedApart(schemas, annotate, defs);
    if V2Ref(r, Flatten.V2Defs(bundle)) { V2RefKept(bundle, r); } else { RootRefKept(bundle, n, r); }
  }

  lemma V2RefKept(bundle: Value, r: string)
    requires Flatten.HasShape(bundle) && PlainAround(bundle) && Apart(bundle) && V2Ref(r, Flatten.V2Defs(bundle))
    ensures Preserved(bundle, Flatten.Flattened(bundle), r)
  {
    assert r == V2 + r[|V2|..];
    PreservedV2(bundle, r[|V2|..]);
  }

  lemma RootRefKept(bundle: Value, n: string, r: string)
    requires Flatten.HasShape(bundle) && PlainAround(bundle) && Apart(bundle) && ToRoot(bundle, n, r)
    ensures Preserved(bundle, Flatten.Flattened(bundle), r)
  {
    assert r == DEFS + r[|DEFS|..];
    CarriedClosed(bundle, n, r);
    PreservedRoot(bundle, r[|DEFS|..]);
  }

  lemma AllKept(schemas: seq<Schema>, annotate: (Value, string) -> Value, defs: Definitions)
    requires Built(schemas, annotate, defs) && Flatten.HasShape(BundleOf(defs)) && PlainAround(BundleOf(defs))
    requires CarriedUnnumbered(schemas, BundleOf(defs))
    ensures AllPreserved(BundleOf(defs))
  {
    var bundle := BundleOf(defs);
    forall n, r | n in FlatDefs(bundle) && r in Refs(FlatDefs(bundle)[n]) && !Foreign(r)
      ensures Preserved(bundle, Flatten.Flattened(bundle), r)
    {
      FlatRefPreserved(schemas, annotate, defs, n, r);
    }
  }

  /** Every reference keeps its meaning exactly when no carried definition refers to a numbered name; and
      then flattening succeeds. */
  lemma {:induction false} ExportPreservesIff(schemas: seq<Schema>, annotate: (Value, string) -> Value,
                                              defs: Definitions)
    requires Built(schemas, annotate, defs)
    ensures Flatten.HasShape(BundleOf(defs))
    ensures AllPreserved(BundleOf(defs)) <==> CarriedUnnumbered(schemas, BundleOf(defs))
    ensures AllPreserved(BundleOf(defs)) ==>
      Flatten.FlatV2Schema(BundleOf(defs)) == Ok(Flatten.Flattened(BundleOf(defs)))
  {
    var bundle := BundleOf(defs);
    ExportedAround(schemas, annotate, defs);
    if CarriedUnnumbered(schemas, bundle) {
      AllKept(schemas, annotate, defs);
      ExportFlattensIff(schemas, annotate, defs);
    } else {
      var types := NamespacedTypes(schemas);
      var i: nat, k, x :| LastWriter(schemas, types, i, k) && Carried(bundle, k) && x in Refs(Part(schemas[i], k))
        && Numbered(types, x);
      NumberedLost(schemas, annotate, defs, i, k, x);
    }
  }

  lemma NumberedLost(schemas: seq<Schema>, annotate: (Value, string) -> Value, defs: Definitions, i: nat, k: string,
                     x: string)
    requires Built(schemas, annotate, defs) && Flatten.HasShape(BundleOf(defs)) && Carried(BundleOf(defs), k)
    requires LastWriter(schemas, NamespacedTypes(schemas), i, k) && x in Refs(Part(schemas[i], k))
    requires Numbered(NamespacedTypes(schemas), x)
    ensures !AllPreserved(BundleOf(defs))
  {
    NumberedUnmet(schemas, annotate, defs, i, k, x);
    NotInV2(BundleOf(defs), k, x[|DEFS|..]);
  }

  lemma NotInV2(bundle: Value, k: string, n: string)
    requires Flatten.HasShape(bundle) && n !in Flatten.V2Defs(bundle) && PlainName(n)
    requires k in FlatDefs(bundle) && V2 + n in Refs(FlatDefs(bundle)[k]) && !Foreign(V2 + n)
    ensures !AllPreserved(bundle)
  {
    ResolveV2(bundle, n);
    assert !Preserved(bundle, Flatten.Flattened(bundle), V2 + n);
  }

  lemma ExportedRootApart(schemas: seq<Schema>, annotate: (Value, string) -> Value)
    requires Exportable(schemas)
    ensures RootApart(schemas, annotate)
  {
    var types := NamespacedTypes(schemas);
    OneNamespace(schemas);
    forall i | 0 <= i < |schemas| && schemas[i].namespace.None? && schemas[i].name !in IGNORED
      ensures RootAdded(schemas[i], types, annotate).Keys !! Namespaces(schemas)
    {
      WritesAdded(schemas[i], types, annotate, "v2");
      if Writes(schemas[i], types, "v2") { RootName(schemas[i], types, "v2"); }
    }
  }
}
