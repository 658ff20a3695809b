/** The condition on numbered names is needed: closed schemas whose export fails in flattening. */
module NumberedName {
  import opened Json
  import opened Pointer
  import opened Bundle
  import opened FlattenProofs
  import opened ExportRefs
  import opened Export
  import opened Wrappers
  import Flatten

  const EMPTY := Object(map[])

  /** A shared root schema with a definition `P1` of its own, beside a type `P` of v2. */
  function Schemas(): seq<Schema>
  {
    [Schema(Some("v2"), "P", EMPTY, false),
     Schema(None, "ClientRequest",
            Object(map[REF := String(DEFS + "P1"), "definitions" := Object(map["P1" := EMPTY])]), false)]
  }

  lemma Types()
    ensures NamespacedTypes(Schemas()) == map["P" := "v2"]
    ensures NamespaceFor("P1", map["P" := "v2"]) == Some("v2")
  {
    var schemas := Schemas();
    assert schemas[..1] == [schemas[0]] && [schemas[0]][..0] == [];
    assert "P1"[..1] == "P" && TrimDigits("P") == "P";
  }

  lemma RootSchema()
    ensures var s := Schemas()[1];
      && Refs(s.value) == {DEFS + "P1"} && Refs(Without(s.value)) == {DEFS + "P1"}
      && DefsOf(s.value) == map["P1" := EMPTY] && CarriedNames(s.value) == {"P1"}
  {
    var m := Schemas()[1].value.members;
    assert Refs(Object(map["P1" := EMPTY])) == {} && Refs(EMPTY) == {};
    assert (m - {"definitions"}).Keys == {REF};
  }

  lemma RootSchemaClosed()
    ensures SelfContained(Schemas()[1])
  {
    RootSchema();
    assert (DEFS + "P1")[|DEFS|..] == "P1";
  }

  lemma EachClosed()
    ensures Exportable(Schemas())
  {
    RootSchemaClosed();
    assert Refs(EMPTY) == {} && SelfContained(Schemas()[0]);
  }

  lemma NothingStays(types: map<string, string>)
    requires NamespaceFor("P1", types).Some?
    ensures RootDefs(Schemas()[1], types) == {}
  {
    RootSchema();
    RewrittenDefs(Schemas()[1].value, r => ToKnown(types, r));
  }

  lemma NothingCarried()
    ensures CarriedNames(Namespaced(EMPTY, "v2")) == {}
  {
    RewrittenDefs(EMPTY, r => ToNamespace("v2", r));
  }

  /** The two schemas contribute one definition to v2, so they cannot disagree; and no definition of theirs
      is annotated. */
  lemma Agree(annotate: (Value, string) -> Value)
    ensures Consistent(Contributions(Schemas(), annotate)) && AllKeepRefs(Schemas(), annotate)
  {
    Types();
    NothingCarried();
    NothingStays(NamespacedTypes(Schemas()));
    assert Of(Schemas()[1], annotate) == {};
    assert OfDefs(Schemas()[0], "v2", annotate, {}) == {};
    forall c | c in Contributions(Schemas(), annotate)
      ensures c == Contribution("v2", "P", Without(Namespaced(EMPTY, "v2")))
    {
      var i :| 0 <= i < 2 && c in Of(Schemas()[i], annotate);
    }
  }

  lemma P1Nowhere(annotate: (Value, string) -> Value, defs: Definitions)
    requires Built(Schemas(), annotate, defs) && Flatten.HasShape(BundleOf(defs))
    ensures "P1" !in FlatDefs(BundleOf(defs))
  {
    Types();
    Shape(defs);
    FlatDefsOrigin(BundleOf(defs), "P1");
    NothingStays(NamespacedTypes(Schemas()));
    if "P1" in defs["v2"].members {
      V2Name(Schemas(), annotate, defs, "P1");
    } else if "P1" in defs {
      var i := RootSource(Schemas(), annotate, defs, "P1");
    }
  }

  lemma ClientRequestCarried(annotate: (Value, string) -> Value, defs: Definitions)
    requires Built(Schemas(), annotate, defs) && Flatten.HasShape(BundleOf(defs))
    ensures LastWriter(Schemas(), NamespacedTypes(Schemas()), 1, "ClientRequest")
    ensures Carried(BundleOf(defs), "ClientRequest")
  {
    Shape(defs);
    assert Flatten.SHARED[0] == "ClientRequest";
    assert LastWriter(Schemas(), NamespacedTypes(Schemas()), 1, "ClientRequest");
    RootHasIt(Schemas(), annotate, defs, 1, "ClientRequest");
  }

  /** These schemas are closed, each on its own, and agree in every namespace, so they are merged; and
      flattening the bundle fails, because `P1` counts as a name of v2 on account of `P` and is defined
      neither there nor at the root. */
  lemma {:induction false} NumberedNameDangles(annotate: (Value, string) -> Value, defs: Definitions)
    requires IsBundle(Schemas(), annotate, defs)
    ensures Exportable(Schemas()) && AllKeepRefs(Schemas(), annotate) && Consistent(Contributions(Schemas(), annotate))
    ensures !Unnumbered(Schemas()) && Flatten.FlatV2Schema(BundleOf(defs)).Err?
  {
    var types, x := NamespacedTypes(Schemas()), DEFS + "P1";
    EachClosed();
    Agree(annotate);
    Types();
    RootSchema();
    assert x[|DEFS|..] == "P1" && Numbered(types, x);
    assert x in Refs(Part(Schemas()[1], "ClientRequest"));
    ExportFlattensIff(Schemas(), annotate, defs);
    P1Nowhere(annotate, defs);
    ClientRequestCarried(annotate, defs);
  }
}
