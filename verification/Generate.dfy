/** `generate_json_with_experimental` without its files: schemas are merged, the experimental parts are
    pruned unless they are wanted, and the bundle is flattened. */
module Generate {
  import opened Json
  import opened Bundle
  import opened ExportRefs
  import opened Export
  import opened Prune
  import opened PruneProofs
  import opened PruneSpec
  import opened Wrappers
  import Flatten

  datatype Outcome =
    | Exported(merged: Value, bundle: Value, flat: Value)
    | NotMerged(collision: BundleError)
    | NotFlattened(merged: Value, bundle: Value, error: Flatten.FlatError)

  lemma ExportedPrunes(schemas: seq<Schema>, annotate: (Value, string) -> Value, defs: Definitions, e: Experimental)
    requires Built(schemas, annotate, defs) && Unnumbered(schemas) && !Gone(e, "v2")
    ensures Flatten.HasShape(BundleOf(defs)) && Flatten.HasShape(Pruned(BundleOf(defs), e))
    ensures Flatten.FlatV2Schema(Pruned(BundleOf(defs), e)).Ok? <==> NothingCut(BundleOf(defs), e)
  {
    ExportClosedIff(schemas, annotate, defs);
    ExportedApart(schemas, annotate, defs);
    PrunedFlattensIff(BundleOf(defs), e);
  }

  /** Merging fails exactly when two namespaced schemas disagree about a name. With the experimental parts
      kept, flattening then succeeds exactly when the refs that carried definitions made to numbered names
      are met; without them, and without numbered names, exactly when no flat definition refers to a type
      taken out. */
  method GenerateJson(schemas: seq<Schema>, annotate: (Value, string) -> Value, experimentalApi: bool, e: Experimental)
    returns (r: Outcome)
    requires Exportable(schemas) && AllKeepRefs(schemas, annotate)
    ensures r.NotMerged? <==> !Consistent(Contributions(schemas, annotate))
    ensures !r.NotMerged? ==>
      && Flatten.HasShape(r.merged) && Built(schemas, annotate, Flatten.Defs(r.merged))
      && r.merged == BundleOf(Flatten.Defs(r.merged))
      && r.bundle == if experimentalApi then r.merged else Pruned(r.merged, e)
    ensures !r.NotMerged? && !experimentalApi ==> WithoutExperimental(r.merged, r.bundle, e)
    ensures r.Exported? ==> Flatten.HasShape(r.bundle) && Flatten.FlatOf(r.bundle, r.flat, Flatten.FlattenRef)
    ensures r.Exported? ==> Flatten.FlatV2Schema(r.bundle) == Ok(r.flat)
    ensures r.NotFlattened? ==> Flatten.FlatV2Schema(r.bundle) == Err(r.error)
    ensures !r.NotMerged? && experimentalApi ==> (r.Exported? <==> NumberedMet(schemas, r.merged))
    ensures !r.NotMerged? && !experimentalApi && Unnumbered(schemas) && !Gone(e, "v2") ==>
      Flatten.HasShape(Pruned(r.merged, e)) && (r.Exported? <==> NothingCut(r.merged, e))
  {
    ExportedRootApart(schemas, annotate);
    var definitions := BuildSchemaBundle(schemas, annotate);
    if definitions.Err? { return NotMerged(definitions.error); }
    ghost var defs := definitions.value;
    V2Exists(schemas, annotate, defs);
    Shape(defs);
    ExportFlattensIff(schemas, annotate, defs);
    if Unnumbered(schemas) && !Gone(e, "v2") { ExportedPrunes(schemas, annotate, defs, e); }
    var merged := BundleOf(definitions.value);
    PrunedIsWithout(merged, e);
    var bundle := if experimentalApi then merged else Pruned(merged, e);
    var flat := Flatten.BuildFlatV2Schema(bundle);
    match flat
    case Ok(value) => return Exported(merged, bundle, value);
    case Err(error) => return NotFlattened(merged, bundle, error);
  }
}
