# Verified model of the app-server schema export, client plumbing and analytics

This project models the parts of the repository where behaviour spans many functions or many
interleaved steps, and proves what those parts are for.

- **Schema export** (`Json`, `Paths`, `Pointer`, `Closure`, `Flatten`, `FlattenProofs`, `Strip`, `StripSpec`,
  `Bundle`, `BundleSpec`, `ExportRefs`, `Export`, `NumberedName`, `Prune`, `Variants`, `PruneSpec`,
  `PruneProofs`, `Generate`, `Canonical`, `JsonPrinter`). JSON values are a datatype whose objects are maps, because two `serde_json` objects
  are equal whatever order their keys were inserted in. A `$ref` means what section 8.3 of the JSON
  Schema draft-07 core specification and sections 3, 4 and 6 of RFC 6901 say: a JSON pointer walked
  from the root. The four ref rewriters of the source share one traversal,
  `Json.MapRefs`, applied with a different function on one ref each.
- **TypeScript filters** (`Syntax`, `Scanner`, `Resplit`, `TypeAlias`, `Imports`, `ClientRequest`, `TypeFields`,
  `TypeFile`). `ScanState` is a class updated in place; the split that it drives is a loop proved equal
  to a recursive specification.
- **Client plumbing** (`Forwarder`, `Remote`, `RemoteProofs`, `RemoteLaws`). The in-process event forwarder and the
  remote websocket worker are state machines; a run is any sequence of steps each enabled in turn, so
  a theorem about `After(steps)` is a theorem about every interleaving. A blocking send is a step that
  is enabled only when there is room or the receiver is gone.
- **Analytics** (`Reducer`, `ReducerProofs`, `ReducerLaws`, `Dedupe`). The reducer is a class over its five maps.
- **Command execution** (`CommandExec`, `CommandExecProofs`, `CommandExecLaws`, `OutputPump`). The session
  registry with its commands and control channels, and the capped output pump.
- **Smaller cores** (`Backend`, `Scenario`, `WrapperArgs`, `WrapperSpec`).

What each transformation means is described apart from how it is computed: JSON rewriting by the places
in a value (`Paths`, `BundleSpec`), the scanner by positions in the text (`Syntax`), pruning and stripping by
relations between the value before and after (`PruneSpec`, `Variants`, `StripSpec`), the wrapper by the
arguments it was given (`WrapperSpec`), and the state machines by what a step in any reachable state does to
the fields (`RemoteLaws`, `ReducerLaws`, `CommandExecLaws`).

`Wrappers` holds options and outcomes, `Text` and `Sequences` string and sequence facts.

State machines carry history fields (the wire read so far, the delivery log) that the program does not
have; they are only written, never read by a step, and exist so that properties of whole runs can be
stated about the last state.

## What was found

- *Joining can swallow a delimiter.* Splitting trims each part, so a kept part that ends inside a `//`
  comment hides the delimiter joined after it. Splitting the joined text gives back exactly the kept
  parts if and only if no kept part but the last ends that way (`Resplit.ResplitExactly`), which always
  holds in text that starts no line comment (`Resplit.FilterBodyIdempotent`). The text `a//`, newline,
  `|b` is one for which it fails (`Resplit.LineCommentSwallows`).
- *Flattening is meaning-preserving exactly when names do not clash.* On a closed bundle the checks at
  the end never fire, clash or not, but resolution is kept if and only if a name used both in `v2` and
  by a carried root definition stands for the same schema (`FlattenProofs.ResolutionPreservedIff`).
  A closed bundle that clashes is `FlattenProofs.ClosedBundleCanClash`.
- *Stripping can leave a dangling ref.* The root scan does not enter `$defs`, so a closed schema stays
  closed exactly when each name still referred to from outside the definitions is also visible to that
  scan or reachable from what is (`Strip.StrippedClosedIff`). `Strip.HiddenRefDangles` is a closed
  schema for which it is not.
- *A numbered definition can dangle.* A root definition named like a namespaced type plus digits counts
  as belonging to the namespace, where it is not defined. Schemas each closed on their own merge into a
  closed bundle if and only if nothing that ends up at the root refers to such a name
  (`Export.ExportClosedIff`). The bundle flattens if and only if each such ref in a definition that is
  carried over happens to lead to a flat definition (`Export.ExportFlattensIff`), and every reference
  keeps its meaning if and only if no carried definition makes one (`Export.ExportPreservesIff`). A
  definition `P1` beside a v2 type `P` makes flattening fail (`NumberedName.NumberedNameDangles`).
- *Pruning experimental types can dangle.* It takes definitions out by name without looking at who refers
  to them. A closed bundle stays closed if and only if no surviving ref names a type taken out
  (`PruneProofs.PrunedClosedIff`), and flattens if and only if no ref of a flat definition does
  (`PruneProofs.PrunedFlattensIff`). `PruneProofs.PruningDangles` is a closed bundle for which both fail.
- *Pruning method variants can leave one.* Items are tested before what is inside them is pruned. An item whose
  `enum` lists one experimental method and otherwise only variants is kept, and what is left of it is a
  variant; without such items none is left (`Variants.PrunedIsCleanIff`, `Variants.MaskedVariantStays`).
- *A turn event's image count depends on arrival order.* It comes from whichever of the start response
  and the resolved config arrived later (`ReducerProofs.ImagesFromTheLater`), so the order matters
  exactly when the two counts differ (`ReducerProofs.ImagesDependOnOrder`).
- *Rebuilding wrapper arguments is a fixpoint* exactly when the manifest path the wrapper supplies is
  not itself `--` (`WrapperArgs.BuildIsFixpoint`).

## Model

| member | source | states |
|---|---|---|
| `Canonical.CanonicalFormDecides` | codex-rs/app-server-protocol/src/schema_fixtures.rs:152-208 | two values have one canonical form exactly when one becomes the other by permuting, at any depth, arrays all of whose elements can be sorted: scalars, and objects with a textual ref or title |
| `Canonical.Idempotent` | codex-rs/app-server-protocol/src/schema_fixtures.rs:152-208 | canonicalising twice is canonicalising once |
| `Canonical.CanonicalFormIsEquivalent` | codex-rs/app-server-protocol/src/schema_fixtures.rs:155-174 | the canonical form is equivalent to the value it came from |
| `Canonical.CanonicalizeJson` | codex-rs/app-server-protocol/src/schema_fixtures.rs:152-208 | the source's recursion over arrays and objects computes the canonical form the theorems are about, with the keys that `KeyIs` describes |
| `Canonical.KeyIs` | codex-rs/app-server-protocol/src/schema_fixtures.rs:210-227 | a value has a key exactly when it is a scalar or an object with a textual ref or, failing that, a textual title, and the key is the prefix of its kind and its text |
| `Canonical.BeforeIsInOrder` | codex-rs/app-server-protocol/src/schema_fixtures.rs:184-195 | the comparison puts booleans first, then numbers, null, references, strings and titled objects, each kind in order of text and equal texts in order of print |
| `Canonical.CanonicalizeItems` | codex-rs/app-server-protocol/src/schema_fixtures.rs:174 | every element is canonicalised, in place and in order |
| `Canonical.CanonicalizeMembers` | codex-rs/app-server-protocol/src/schema_fixtures.rs:197-205 | walking the sorted keys rebuilds the object with the same keys and canonical children |
| `Canonical.HasAllKeys` | codex-rs/app-server-protocol/src/schema_fixtures.rs:175-183 | collecting keys succeeds exactly when every element has one; otherwise the order is kept |
| `Canonical.SortKeyKept` | codex-rs/app-server-protocol/src/schema_fixtures.rs:210-227 | canonicalising a value never changes its sort key |
| `Canonical.BeforeAntisymmetric` | codex-rs/app-server-protocol/src/schema_fixtures.rs:186-193 | the comparison ties only equal elements |
| `Canonical.SortedUnique` | codex-rs/app-server-protocol/src/schema_fixtures.rs:184-195 | the sorted array is determined by its elements, whatever order they came in |
| `Canonical.CanonicalArrayOrder` | codex-rs/app-server-protocol/src/schema_fixtures.rs:170-195 | an array whose elements can all be sorted comes out in order of kind, then text, then print, with the same elements; any other array keeps its order |
| `JsonPrinter.PrintInjective` | codex-rs/app-server-protocol/src/schema_fixtures.rs:181 | the serialised text used to break ties determines the value |
| `JsonPrinter.PrintUnique` | codex-rs/app-server-protocol/src/schema_fixtures.rs:181 | inside any larger text, a value's text determines the value and where it ends |
| `JsonPrinter.SortedKeysAscend` | codex-rs/app-server-protocol/src/schema_fixtures.rs:197-205 | keys come out ascending, each once |
| `JsonPrinter.EscapeCharReads` | codex-rs/app-server-protocol/src/schema_fixtures.rs:181 | what is written for a character is what section 7 of RFC 8259 reads as that character |
| `Text.LeqFirstDifference` | codex-rs/app-server-protocol/src/schema_fixtures.rs:186-193 | the order on texts is by the character where they first differ, a beginning before the whole |
| `Json.MapRefsRefs` | codex-rs/app-server-protocol/src/export.rs:1175-1192 | rewriting maps the set of refs pointwise: none is lost and none invented |
| `Paths.MapRefsRewrites` | codex-rs/app-server-protocol/src/export.rs:1175-1192 | a value is the rewritten one exactly when it has the same places, with the same leaves, lengths and keys there, except that each textual `$ref` is the new address |
| `Paths.RefsAt` | codex-rs/app-server-protocol/src/export.rs:1125-1151 | the collected refs are exactly the texts at the places that hold a `$ref` |
| `Text.ReplaceFirst` | codex-rs/app-server-protocol/src/export.rs:1179 | replacing goes from the leftmost occurrence on |
| `Scanner.ScanState.Observe` | codex-rs/app-server-protocol/src/export.rs:890-959 | the in-place update follows the transition function in every mode; what its state means is `Scanner.ScannerIsSyntax` |
| `Scanner.ScannerIsSyntax` | codex-rs/app-server-protocol/src/export.rs:890-959 | the positions where the scanner ignores nothing are the code of the text, those where no comment and no string opened in code is still open, and its four depths are the floored counts of the brackets in code |
| `Syntax.CodeUnique` | codex-rs/app-server-protocol/src/export.rs:902-947 | that description fixes which positions are code |
| `Scanner.SplitIsSyntax` | codex-rs/app-server-protocol/src/export.rs:758-777 | the parts are the trimmed nonblank pieces of the text between exactly those delimiters that stand in its code and in no bracket |
| `Scanner.BracesAre` | codex-rs/app-server-protocol/src/export.rs:739-746 | the braces the span search looks for are those in code that open where no bracket is open, and those that leave none open |
| `Scanner.SplitTopLevelMulti` | codex-rs/app-server-protocol/src/export.rs:758-777 | the loop returns the trimmed nonblank pieces, in order, between the delimiters that stand in the code of the text and in no bracket, code and brackets being described by the text alone |
| `Scanner.FindTopLevelBraceSpan` | codex-rs/app-server-protocol/src/export.rs:735-752 | the span ends at the first brace closing back to top level after an opening one and starts at the last opening one before it; none means there is no such pair |
| `Resplit.CutFindsInitialState` | codex-rs/app-server-protocol/src/export.rs:763-770 | wherever the split cuts, the scanner is in its initial state up to the previous character |
| `Resplit.SplitCovers` | codex-rs/app-server-protocol/src/export.rs:758-777 | the split loses nothing: the text is its segments with one delimiter between each two, cut at every top-level delimiter, and the parts are the segments trimmed, blank ones left out |
| `Resplit.SplitGood` | codex-rs/app-server-protocol/src/export.rs:758-777 | every part is trimmed, holds no top-level delimiter and, unless last, ends at top level; without line comments none ends in one |
| `Resplit.FilterSelects` | codex-rs/app-server-protocol/src/export.rs:314-321 | filtering selects exactly the parts to be kept, in order |
| `Resplit.ResplitExactly` | codex-rs/app-server-protocol/src/export.rs:314-323 | splitting the joined kept parts gives exactly the kept parts, in order, if and only if none but the last ends in a line comment |
| `Resplit.FilterBodyIdempotent` | codex-rs/app-server-protocol/src/export.rs:375-387 | in text that never enters a line comment, filtering keeps exactly the kept parts and filtering again changes nothing |
| `Imports.PruneUnusedTypeImports` | codex-rs/app-server-protocol/src/export.rs:651-668 | the loop drops exactly the lines that import one type the scope does not mention, and keeps a final newline |
| `Imports.LinesAre` | codex-rs/app-server-protocol/src/export.rs:654 | the lines are the text between newlines, each without the carriage return before its newline, and nothing behind a final newline |
| `Imports.ImportedNameIs` | codex-rs/app-server-protocol/src/export.rs:670-680 | the name read off a line is the one type it imports: behind `import type {`, blanks aside, before the first `} from `, without a comma or a renaming |
| `Imports.DroppedIff` | codex-rs/app-server-protocol/src/export.rs:655-660 | a line is dropped exactly when the one type it imports occurs nowhere in the scope |
| `Imports.PruneFront` | codex-rs/app-server-protocol/src/export.rs:651-668 | when no import stands in the rest of a file, pruning only goes through the whole lines in front |
| `Imports.PruneFrontTwice` | codex-rs/app-server-protocol/src/export.rs:651-668 | and pruning such a file again changes nothing |
| `TypeFile.FilterTypeFields` | codex-rs/app-server-protocol/src/export.rs:370-395 | the file comes back with the fields between the braces of its type filtered, the imports they no longer mention dropped, and everything else as it was |
| `TypeFields.SpanUnique` | codex-rs/app-server-protocol/src/export.rs:735-752 | the span is determined by the text |
| `TypeFields.SpanAgain` | codex-rs/app-server-protocol/src/export.rs:735-752 | with another balanced body between the braces, the span is found again at the same opening brace and ends right after the new body |
| `TypeFields.SpanFiltered` | codex-rs/app-server-protocol/src/export.rs:735-752 | so with its fields filtered a body has its span at the same opening brace, and filtering it again changes nothing |
| `TypeFile.MarkAt` | codex-rs/app-server-protocol/src/export.rs:718-733 | the body of a type starts behind the first equals sign, or else behind the first interface marker, whatever whole lines stand in front |
| `TypeFile.NothingLeft` | codex-rs/app-server-protocol/src/export.rs:391-395 | after one pass the body starts behind the imports that are left, and all of them are used |
| `TypeFile.TypeFieldsIdempotent` | codex-rs/app-server-protocol/src/export.rs:370-395 | filtering a whole file twice, imports and all, is filtering it once, at the same opening brace, when no line comment starts between the braces, no brace there closes an outer one, imports stand before the type and lines end in plain newlines |
| `Resplit.LineCommentSwallows` | codex-rs/app-server-protocol/src/export.rs:758-777 | `a//`, newline, the bar and `b` splits into two parts that, joined again, do not come back, because the first ends in a line comment |
| `ClientRequest.FilterClientRequestIdempotent` | codex-rs/app-server-protocol/src/export.rs:300-324 | filtering the request file twice, imports and all, is filtering it once, and it stays a type alias, when no line comment starts in the union, imports stand before it and lines end in plain newlines |
| `TypeAlias.AliasOf` | codex-rs/app-server-protocol/src/export.rs:706-716 | a file is cut at its first equals sign and its last semicolon |
| `Closure.CollectDefinitionDependencies` | codex-rs/app-server-protocol/src/export.rs:1153-1173 | the worklist terminates on any graph with the least set holding the names and closed under references |
| `Closure.ReachableLocalDefinitions` | codex-rs/app-server-protocol/src/export.rs:1417-1432 | the mark-on-queue worklist terminates with the same least set |
| `Closure.LeastIsLeast` | codex-rs/app-server-protocol/src/export.rs:1153-1173 | that set holds the roots, is closed, and lies inside every closed set around the roots |
| `Closure.LeastIsReachable` | codex-rs/app-server-protocol/src/export.rs:1417-1432 | a name is in it exactly when a chain of references leads there from a root |
| `Pointer.ResolveRoot` | codex-rs/app-server-protocol/src/export.rs:1246-1251 | the pointer `#/definitions/N` finds the definition named N and nothing else |
| `Pointer.ResolveNamespaced` | codex-rs/app-server-protocol/src/export.rs:1267-1282 | the pointer `#/definitions/NS/N` finds the definition N of the namespace and nothing else |
| `Flatten.BuildFlatV2Schema` | codex-rs/app-server-protocol/src/export.rs:1075-1123 | returns a bundle that holds every v2 definition and every root definition a shared schema needs, each rewritten place by place, with the title marked and the rest as it was, or the error of the first failing check |
| `Flatten.FlattenedIsFlat` | codex-rs/app-server-protocol/src/export.rs:1088-1120 | what is assembled and rewritten has those definitions, by their origin, and those members |
| `Flatten.NeededIsCarried` | codex-rs/app-server-protocol/src/export.rs:1094-1113 | a root definition is carried over exactly when a chain of references leads to it from `ClientRequest` or `ServerNotification` |
| `Flatten.ChecksPassIff` | codex-rs/app-server-protocol/src/export.rs:1194-1265 | the final checks pass exactly when every reference stays within the definitions of the bundle |
| `FlattenProofs.ClosedIsFlat` | codex-rs/app-server-protocol/src/export.rs:1075-1123 | a closed bundle flattens to that with v2 addresses losing their namespace and no other address changing |
| `Flatten.CollectShared` | codex-rs/app-server-protocol/src/export.rs:1097-1104 | gathers the shared schemas present and every root name they refer to |
| `Flatten.AddDependencies` | codex-rs/app-server-protocol/src/export.rs:1106-1113 | in any iteration order, adds exactly the dependencies that are defined and not already v2 names |
| `FlattenProofs.FlatteningSucceedsIff` | codex-rs/app-server-protocol/src/export.rs:1115-1122 | flattening succeeds exactly when every ref of a flat definition is foreign or leads, once rewritten, to a flat definition |
| `FlattenProofs.FlatteningSucceeds` | codex-rs/app-server-protocol/src/export.rs:1115-1122 | so on every closed bundle neither final check fires |
| `FlattenProofs.ResolutionPreservedIff` | codex-rs/app-server-protocol/src/export.rs:1063-1123 | looking up the lifted address of every v2 and every carried definition gives the original target, rewritten place by place, if and only if no name clashes with a different schema |
| `FlattenProofs.ClosedBundleCanClash` | codex-rs/app-server-protocol/src/export.rs:1106-1113 | a shared schema that refers to a root definition of the same name as a different v2 schema makes a closed bundle that clashes |
| `FlattenProofs.EveryRefPreserved` | codex-rs/app-server-protocol/src/export.rs:1063-1123 | without a clash, every reference made by a flat definition still resolves to the rewritten original target |
| `FlattenProofs.FlattenedRoot` | codex-rs/app-server-protocol/src/export.rs:1088-1117 | outside the definitions only the title changes, by its suffix |
| `FlattenProofs.CarriedClosed` | codex-rs/app-server-protocol/src/export.rs:1125-1173 | root references made by carried definitions lead to carried definitions |
| `FlattenProofs.FlattenV2` | codex-rs/app-server-protocol/src/export.rs:1175-1180 | replacing every occurrence of the prefix moves a single-segment v2 ref to the root |
| `FlattenProofs.FlattenRoot` | codex-rs/app-server-protocol/src/export.rs:1175-1180 | and leaves a single-segment root ref alone |
| `Strip.StripMethodVariants` | codex-rs/app-server-protocol/src/export.rs:1381-1399 | drops the variants, then every definition outside the least set reachable from the trimmed root |
| `Strip.KeepsExactlyTheReachable` | codex-rs/app-server-protocol/src/export.rs:1381-1501 | a definition survives, unchanged, exactly when a chain of refs leads to it from the trimmed root; the rest of the schema is untouched |
| `Strip.RetainExactly` | codex-rs/app-server-protocol/src/export.rs:1382-1390 | the variants whose method is not listed stay, in their order and as often as before; the others go |
| `StripSpec.ListedIff` | codex-rs/app-server-protocol/src/export.rs:1401-1415 | a variant is listed exactly when the `method` among its properties is such a constant or, failing a textual one, the first of such an `enum` |
| `StripSpec.StrippedIsWithout` | codex-rs/app-server-protocol/src/export.rs:1381-1501 | the result lacks exactly the listed variants, in order, and the definitions to which no chain of references leads from a reference outside every map of definitions; the rest is as it was |
| `Strip.StrippedClosedIff` | codex-rs/app-server-protocol/src/export.rs:1392-1457 | a closed schema stays closed exactly when every name still referred to outside the definitions is reachable for the root scan |
| `Strip.HiddenRefDangles` | codex-rs/app-server-protocol/src/export.rs:1434-1457 | a closed schema whose only reference to a definition sits below `$defs` loses that definition |
| `Strip.StrippedClosed` | codex-rs/app-server-protocol/src/export.rs:1381-1457 | so a closed schema with no ref below a nested `definitions` or `$defs` key stays closed |
| `Bundle.BuildSchemaBundle` | codex-rs/app-server-protocol/src/export.rs:980-1061 | fails exactly when two contributions to one namespaced name differ; otherwise each namespace holds exactly its contributions, and the root holds, for each other name, what the last root schema to write it left |
| `BundleSpec.FirstToMentionOwns` | codex-rs/app-server-protocol/src/export.rs:1603-1623 | a name belongs to the namespace of the first namespaced schema that mentions it as its own or among its definitions |
| `BundleSpec.BelongsTo` | codex-rs/app-server-protocol/src/export.rs:1625-1637 | a definition belongs where its name is owned, or else its name without the digits it ends in |
| `BundleSpec.MovedInto` | codex-rs/app-server-protocol/src/export.rs:1542-1562 | an address in the definitions is moved below the namespace unless it starts there, and no other address changes |
| `BundleSpec.PointedTo` | codex-rs/app-server-protocol/src/export.rs:1576-1601 | an address is pointed below the namespace of the name it starts with, keeping what follows the name |
| `BundleSpec.NamedMoved` | codex-rs/app-server-protocol/src/export.rs:1895-1915 | the forced retargeting moves the addresses of one name, with whatever follows it |
| `BundleSpec.OthersStay` | codex-rs/app-server-protocol/src/export.rs:1895-1915 | and no others |
| `BundleSpec.ContributionsAreStored` | codex-rs/app-server-protocol/src/export.rs:992-1042 | what a namespaced schema contributes is itself without its definitions, and each definition that is not left out, annotated, all with their addresses moved below the namespace, place by place |
| `BundleSpec.RootStores` | codex-rs/app-server-protocol/src/export.rs:1010-1037 | a root schema leaves at the root itself and the definitions that belong to no namespace, annotated, with their addresses pointed to the namespaces, place by place |
| `BundleSpec.RootStoresItself` | codex-rs/app-server-protocol/src/export.rs:1025-1046 | and in itself the names of the definitions that leave are moved once more, one after the other |
| `ExportRefs.BundleSays` | codex-rs/app-server-protocol/src/export.rs:1048-1060 | the bundle names its schema version, its title and its type, and holds the definitions |
| `Bundle.AddNamespaced` | codex-rs/app-server-protocol/src/export.rs:996-1042 | one namespaced schema is added without loss, or refused exactly on a conflict |
| `Bundle.InsertHolds` | codex-rs/app-server-protocol/src/export.rs:1267-1310 | inserting fails exactly when the name already stands for a different schema |
| `Bundle.BundleOrderIrrelevant` | codex-rs/app-server-protocol/src/export.rs:980-1061 | permuting the input changes neither the verdict nor the content of any namespace |
| `Bundle.RootRefRetargeted` | codex-rs/app-server-protocol/src/export.rs:1566-1637 | a root schema's reference to a name a namespaced schema owns is pointed into that namespace, and resolves in the bundle |
| `Bundle.NamespacedTwice` | codex-rs/app-server-protocol/src/export.rs:1542-1564 | rewriting refs to a namespace is idempotent |
| `Bundle.StoredAfterOneRewrite` | codex-rs/app-server-protocol/src/export.rs:996-1026 | if annotating adds no refs, the second rewrite of a definition does nothing |
| `Export.ExportClosedIff` | codex-rs/app-server-protocol/src/export.rs:980-1061 | schemas closed on their own merge into a closed bundle exactly when nothing that ends up at the root refers to a name that counts as a namespaced type only for its digits |
| `Export.ExportFlattensIff` | codex-rs/app-server-protocol/src/export.rs:222-230 | the merged bundle flattens exactly when each ref that a carried definition made to a numbered name leads to a flat definition all the same |
| `Export.ExportPreservesIff` | codex-rs/app-server-protocol/src/export.rs:222-230 | every reference of every flat definition resolves to the rewritten form of what it meant exactly when no carried definition refers to a numbered name, and then flattening succeeds |
| `Generate.GenerateJson` | codex-rs/app-server-protocol/src/export.rs:192-230 | merging fails exactly on a conflict; unless the experimental API is wanted, the merged bundle loses its experimental fields, method variants and types and nothing else; and the bundle flattens, with experimental parts kept, exactly when the refs carried definitions make to numbered names are met, and with them pruned and no numbered names, exactly when nothing refers to a type taken out |
| `PruneSpec.PrunedIsWithout` | codex-rs/app-server-protocol/src/export.rs:397-649 | pruning takes the experimental fields out of `properties` and `required` of their own types, then the method variants out of every array, then the experimental types, and leaves everything else, in order, as it was |
| `Variants.VariantIff` | codex-rs/app-server-protocol/src/export.rs:517-540 | an item is a variant exactly when the `method` among its properties is such a constant or, failing a textual one, an `enum` of just such a text |
| `Variants.PrunedIsCleanIff` | codex-rs/app-server-protocol/src/export.rs:500-515 | after pruning no array anywhere holds a variant, if and only if no item had an `enum` that is one method and otherwise lists variants only |
| `Variants.MaskedVariantStays` | codex-rs/app-server-protocol/src/export.rs:500-515 | such an item is kept and is a variant afterwards |
| `PruneSpec.PrunedBundleIsClean` | codex-rs/app-server-protocol/src/export.rs:397-404 | so without such items the pruned bundle holds no variant |
| `PruneSpec.PrunedLacksFields` | codex-rs/app-server-protocol/src/export.rs:434-489 | a schema that is left neither has nor requires an experimental field of its type |
| `ExportRefs.V2Closed` | codex-rs/app-server-protocol/src/export.rs:996-1042 | whatever a namespaced schema stores in its namespace refers only to names stored there |
| `ExportRefs.RootTarget` | codex-rs/app-server-protocol/src/export.rs:998-1051 | a reference of a root definition comes from one its last writer made, and leads nowhere local, to a root name no namespaced schema owns, or to a schema of v2; only one to a numbered name is pointed into v2 unseen |
| `Export.DependenciesApart` | codex-rs/app-server-protocol/src/export.rs:1106-1113 | nothing the shared schemas depend on at the root is named like a namespaced type |
| `ExportRefs.LastStored` | codex-rs/app-server-protocol/src/export.rs:1033-1051 | the root holds under a name what the last schema to write it left |
| `ExportRefs.StoredAtRoot` | codex-rs/app-server-protocol/src/export.rs:1044-1046 | the forced retargeting of moved definitions finds nothing left to do |
| `Export.CarriedApart` | codex-rs/app-server-protocol/src/export.rs:1106-1113 | so no name is used both in v2 and by a definition carried over, which is stored flat as it was |
| `NumberedName.NumberedNameDangles` | codex-rs/app-server-protocol/src/export.rs:1625-1637 | a shared root schema with a definition `P1` and a v2 type `P` are each closed and contribute consistently, whatever the annotation, and yet flattening their bundle fails |
| `PruneProofs.PrunedShape` | codex-rs/app-server-protocol/src/export.rs:397-404 | pruning takes exactly the named types out of the root definitions and adds no ref anywhere |
| `PruneProofs.PrunedV2` | codex-rs/app-server-protocol/src/export.rs:621-649 | from v2 it takes them exactly when v2 looks like a map of schemas, which pruning fields and methods does not change |
| `PruneProofs.PrunedClosedIff` | codex-rs/app-server-protocol/src/export.rs:397-404 | a closed bundle stays closed exactly when no surviving ref names a type taken out |
| `PruneProofs.PrunedFlattensIff` | codex-rs/app-server-protocol/src/export.rs:222-230 | what is left of a closed bundle in which no carried name is a v2 name flattens exactly when no ref of a flat definition names a type taken out |
| `PruneProofs.PruningDangles` | codex-rs/app-server-protocol/src/export.rs:621-649 | a closed bundle in which a shared schema refers to an experimental v2 type is left dangling, and flattening fails |
| `Forwarder.DeliveryUnderAnySchedule` | codex-rs/app-server-client/src/lib.rs:197-277 | while the consumer stays, the delivered events are an in-order subsequence holding every lossless event, and each server request is delivered, rejected or refused exactly once |
| `Forwarder.LagAccounting` | codex-rs/app-server-client/src/lib.rs:211-277 | under any schedule the markers before the first delivered event, and between any two, count exactly the drops there, and the tail is the skipped counter |
| `Forwarder.AtMostOneLost` | codex-rs/app-server-client/src/lib.rs:228-231 | when the consumer goes away at most the event in flight is neither delivered nor dropped |
| `Forwarder.NeverStuck` | codex-rs/app-server-client/src/lib.rs:256-263 | whenever the blocking send cannot proceed, the consumer can read |
| `Forwarder.Possible` | codex-rs/app-server-client/src/lib.rs:197-277 | what can happen next in any reachable state; the only wait is for a lossless event with a full queue |
| `Forwarder.ConsumerReads` | codex-rs/app-server-client/src/lib.rs:197-277 | the consumer reads the oldest item |
| `Forwarder.LosslessIff` | codex-rs/app-server-client/src/lib.rs:156-190 | the lossless tier is transcript text and completions |
| `Forwarder.RoomDelivers` | codex-rs/app-server-client/src/lib.rs:211-277 | in every reachable state, with room and a consumer nothing is dropped: the marker goes first, then the event |
| `Forwarder.FullQueue` | codex-rs/app-server-client/src/lib.rs:228-277 | with a full queue a lossless event waits, and any other is dropped and counted, a server request among them rejected |
| `Forwarder.ConsumerGone` | codex-rs/app-server-client/src/lib.rs:239-262 | without a consumer the event in hand ends the stream |
| `Forwarder.Takes` | codex-rs/app-server-client/src/lib.rs:540-560 | an event is taken up when none is in hand, and a token refresh is refused at once |
| `Forwarder.InvAlways` | codex-rs/app-server-client/src/lib.rs:540-587 | the log, the queue, the counter and the rejections agree in every reachable state |
| `Remote.RemoteClient.HandleRequest` | codex-rs/app-server-client/src/remote.rs:224-259 | a request is refused as duplicate, left pending, or completed by its own write error, and the whole new state is as the step says |
| `Remote.RemoteClient.HandleFrame` | codex-rs/app-server-client/src/remote.rs:312-455 | each frame settles its own waiter, delivers its event, or ends the loop with the matching error; what that means for the fields is `RemoteLaws.FrameSettles`, `FrameDelivers` and `FrameEnds` |
| `Remote.RemoteClient.HandleHandshakeFrame` | codex-rs/app-server-client/src/remote.rs:700-790 | frames before the initialize response are kept as events, answered, ignored, or end the handshake |
| `Remote.RemoteClient.NextEventNow` | codex-rs/app-server-client/src/remote.rs:602-607 | handshake events are read before worker events |
| `Remote.RemoteClient.DrainPending` | codex-rs/app-server-client/src/remote.rs:459-467 | in whatever order the map yields, every waiter left is completed with the exit error, each once |
| `RemoteProofs.CompletedAtMostOnce` | codex-rs/app-server-client/src/remote.rs:212-468 | in every run each submitted waiter is either pending or completed exactly once, and one completed by a frame got a frame with its own id |
| `RemoteProofs.NoWaiterLeft` | codex-rs/app-server-client/src/remote.rs:459-467 | after the drain every submitted waiter has been completed exactly once |
| `RemoteProofs.DrainAnswersEveryone` | codex-rs/app-server-client/src/remote.rs:465-467 | draining in any order empties the map and leaves every waiter completed exactly once |
| `RemoteProofs.DuplicateRefused` | codex-rs/app-server-client/src/remote.rs:226-232 | a duplicate outstanding id is answered at once and leaves the original waiter pending and unanswered |
| `RemoteProofs.EventsInWireOrder` | codex-rs/app-server-client/src/remote.rs:326-455 | the events read are the decodable messages in wire order, with at most one disconnect notice and nothing after it; a consumer that left saw a prefix |
| `RemoteLaws.Possible` | codex-rs/app-server-client/src/remote.rs:212-467 | what can happen next in any reachable state: which commands, frames, reads and drains |
| `RemoteLaws.Reads` | codex-rs/app-server-client/src/remote.rs:602-607 | the consumer reads what was kept from the handshake first, oldest first, and then what the worker sent |
| `RemoteLaws.FrameSettles` | codex-rs/app-server-client/src/remote.rs:316-325 | in every reachable running state an answer with a pending id takes out exactly that entry and completes its waiter, and no other, with what the server said; every other frame settles nobody |
| `RemoteLaws.FrameDelivers` | codex-rs/app-server-client/src/remote.rs:326-363 | a decodable event is delivered, or ends the loop quietly when nobody listens; what does not decode is passed over |
| `RemoteLaws.FrameEnds` | codex-rs/app-server-client/src/remote.rs:364-455 | the frames that end the loop do so with their own error and announce the disconnect to a consumer that listens |
| `RemoteLaws.HandshakeFrame` | codex-rs/app-server-client/src/remote.rs:700-790 | during the handshake events are kept in order, only the answer to `initialize` opens or refuses the client, and anything that is no message refuses it |
| `RemoteLaws.RequestSubmitted` | codex-rs/app-server-client/src/remote.rs:224-259 | a request with a free id waits once written, gets the write error and ends the loop when it cannot be, and is refused when its id is taken; nobody else is touched |
| `RemoteLaws.OtherCommand` | codex-rs/app-server-client/src/remote.rs:219-311 | other commands settle nobody, and a shutdown or the end of the commands ends the loop without an error |
| `RemoteLaws.Drains` | codex-rs/app-server-client/src/remote.rs:459-467 | draining completes the waiter taken out with the error the loop ended with, or a broken pipe |
| `RemoteLaws.AnsweredByTheFirst` | codex-rs/app-server-client/src/remote.rs:212-468 | over every run a written request is pending until the first answer with its id after it, or the drain, and is told what that says |
| `Reducer.AnalyticsReducer.Ingest` | codex-rs/analytics/src/reducer.rs:158-235 | one fact updates the five maps and emits events as the step function says |
| `Reducer.AnalyticsReducer.IngestResponse` | codex-rs/analytics/src/reducer.rs:486-553 | responses consume their pending request, of whatever kind, and start or steer the turn |
| `Reducer.AnalyticsReducer.MaybeEmitTurnEvent` | codex-rs/analytics/src/reducer.rs:806-860 | a turn's entry is handed out and removed exactly when the join is complete and both metadata are known |
| `ReducerProofs.LaterDropsUnreachable` | codex-rs/analytics/src/reducer.rs:272-306 | in every reachable state a compaction or guardian report is emitted exactly when the thread has a connection; the later drop branches are dead |
| `ReducerProofs.InvAlways` | codex-rs/analytics/src/reducer.rs:664-700 | thread connections and thread metadata always have the same keys, and every recorded connection is known |
| `ReducerProofs.TurnEventConfluence` | codex-rs/analytics/src/reducer.rs:806-860 | in every order of the three facts, among any bystanders, exactly the last of them emits the turn's event, once, and the event reports what the three said with the metadata of the turn's own connection and thread |
| `ReducerProofs.ExactlyOneCompletes` | codex-rs/analytics/src/reducer.rs:806-860 | if all three arrive, exactly one fact is that last one |
| `ReducerProofs.ImagesFromTheLater` | codex-rs/analytics/src/reducer.rs:540-543 | the reported image count is that of the later of start response and resolved config |
| `ReducerProofs.ImagesDependOnOrder` | codex-rs/analytics/src/reducer.rs:357-360 | swapping the two changes what is collected exactly when their image counts differ |
| `ReducerLaws.ConnectionIs` | codex-rs/analytics/src/reducer.rs:237-260 | after any facts a connection is known exactly if it was initialised, with the metadata it was last initialised with |
| `ReducerLaws.ThreadIs` | codex-rs/analytics/src/reducer.rs:664-682 | a thread has the connection and metadata of the last response that announced it on an initialised connection |
| `ReducerLaws.RequestIs` | codex-rs/analytics/src/reducer.rs:308-337 | a turn request is pending from when it is made to the first response or error with its connection and id |
| `ReducerLaws.SteerReports` | codex-rs/analytics/src/reducer.rs:743-804 | a settled steering request is reported once, as accepted or as rejected with its reason, exactly when its connection and thread are known |
| `ReducerLaws.ThreadReports` | codex-rs/analytics/src/reducer.rs:272-306 | a compaction or guardian report carries what is known of its thread and connection, and is dropped exactly when the thread was never announced |
| `ReducerLaws.AnnouncementReports` | codex-rs/analytics/src/reducer.rs:664-700 | a thread is reported when it is announced on an initialised connection |
| `ReducerLaws.TurnRecorded` | codex-rs/analytics/src/reducer.rs:806-860 | a fact about a turn changes just its own part of the entry, and the entry is reported, as it then is, and removed exactly when that makes it whole |
| `ReducerLaws.OtherTurnsKept` | codex-rs/analytics/src/reducer.rs:339-382 | and leaves every other turn alone |
| `Dedupe.EmittedKeys.Insert` | codex-rs/analytics/src/client.rs:93-96 | the set is cleared if full, and the key accepted exactly if new |
| `Dedupe.AnalyticsEventsQueue.ShouldEnqueueAppUsed` | codex-rs/analytics/src/client.rs:81-97 | a call without a connector id is accepted and leaves the set alone; otherwise the app set is cleared if full, and the key accepted exactly if new; the plugin set stays as it was |
| `Dedupe.AnalyticsEventsQueue.ShouldEnqueuePluginUsed` | codex-rs/analytics/src/client.rs:99-112 | the plugin set is cleared if full, and the key accepted exactly if new; the app set stays as it was |
| `Dedupe.UnseenAccepted` | codex-rs/analytics/src/client.rs:93-96 | a key never offered before is always accepted, even across clears |
| `Dedupe.DedupeBound` | codex-rs/analytics/src/client.rs:81-112 | the set never exceeds 4096 keys, and after A acceptances any one key was accepted at most 1 + A/4096 times |
| `CommandExec.SessionRegistry.AllocateId` | codex-rs/app-server/src/command_exec.rs:164-172 | generated ids count up from one |
| `CommandExec.SessionRegistry.TryRegister` | codex-rs/app-server/src/command_exec.rs:253-265 | registers under the lock exactly when the key is free |
| `CommandExec.SessionRegistry.TakeConnection` | codex-rs/app-server/src/command_exec.rs:375-390 | removes exactly the connection's sessions and returns exactly the commands of the active ones |
| `CommandExecProofs.AtMostOnePerKey` | codex-rs/app-server/src/command_exec.rs:256-306 | in every run at most one unfinished command holds a connection and process id, and the registry holds its session while the connection is open |
| `CommandExecProofs.GeneratedIdsNeverCollide` | codex-rs/app-server/src/command_exec.rs:164-176 | a generated id names one command over the whole run and is never a client's |
| `CommandExecProofs.RepliesOnce` | codex-rs/app-server/src/command_exec.rs:288-306 | a started command replies at most once, a finished one exactly once, a failed spawn never |
| `CommandExecProofs.ClosedConnectionsAreReaped` | codex-rs/app-server/src/command_exec.rs:375-402 | once the close has sent what it owed, the connection has no session and each of its live commands has a terminate queued or carried out |
| `CommandExecProofs.OwnSession` | codex-rs/app-server/src/command_exec.rs:304-305 | while a command is unfinished, the session found under its key, if any, is its own |
| `CommandExecProofs.RemoveMirrors` | codex-rs/app-server/src/command_exec.rs:304-305 | so removing by key when a task ends leaves the registry and the unfinished commands mirroring each other |
| `CommandExecLaws.Possible` | codex-rs/app-server/src/command_exec.rs:256-436 | what can happen next in any reachable state, step by step of a command, its messages and its connection |
| `CommandExecLaws.Allocates` | codex-rs/app-server/src/command_exec.rs:164-172 | generated ids count up from one, and each is given out once |
| `CommandExecLaws.Starts` | codex-rs/app-server/src/command_exec.rs:164-265 | a start whose key has a session is refused, and any other adds one command and its session |
| `CommandExecLaws.Addressed` | codex-rs/app-server/src/command_exec.rs:404-436 | a client's message goes to the unfinished command under exactly its key |
| `CommandExecLaws.Delivered` | codex-rs/app-server/src/command_exec.rs:425-436 | a message that arrives is queued last, among at most 32, or lost on a command that stopped receiving |
| `CommandExecLaws.Taken` | codex-rs/app-server/src/command_exec.rs:507-536 | a running command takes its messages in order, and only a terminate makes it terminate |
| `CommandExecLaws.Stopped` | codex-rs/app-server/src/command_exec.rs:526-535 | an expiry makes a command terminate, and so does its channel closing, which cannot happen while its connection is open |
| `CommandExecLaws.Phases` | codex-rs/app-server/src/command_exec.rs:256-306 | spawn, exit, reply and removal follow one another, each by its own step |
| `CommandExecLaws.TerminatedForAReason` | codex-rs/app-server/src/command_exec.rs:320-540 | in every run a command terminates only if its own client asked, its connection closed or it expired |
| `CommandExecLaws.ClientTerminateArrives` | codex-rs/app-server/src/command_exec.rs:343-436 | from when a client's terminate finds its command it stays on its way, queued or carried out until the command stops running |
| `OutputPump.Pump` | codex-rs/app-server/src/command_exec.rs:577-627 | for any chunking and coalescing the pieces are a prefix of the capped output, all of it unless the drain timeout was signalled, and even then all that was received before the signal; only the final piece can say the cap is reached; each piece is below the hint plus the largest chunk |
| `OutputPump.Coalesce` | codex-rs/app-server/src/command_exec.rs:588-593 | a piece is the next chunk and some of those waiting, in order, and stops growing at the hint |
| `Backend.CodexBackend.NextRequestId` | codex-rs/agent-backend/src/codex.rs:200-204 | each call takes the next number and prints it after an r |
| `Backend.CodexBackend.DispatchIncoming` | codex-rs/agent-backend/src/codex.rs:304-351 | a frame goes to the waiter of its id if there is one, else to the broadcast if it has a method, else nowhere, and only a waiter reached leaves the map |
| `Backend.CodexBackend.DeliverResponse` | codex-rs/agent-backend/src/codex.rs:355-366 | resolves and removes the waiter of the id, if any |
| `Backend.RoutingSafe` | codex-rs/agent-backend/src/codex.rs:304-366 | in every run a request's waiter is resolved at most once, and only by a frame with its own id |
| `Backend.WritesInOrder` | codex-rs/agent-backend/src/codex.rs:228-265 | in every run values are written in the order they entered the channel, and those not yet written are still in it |
| `Backend.EveryRequestWaitsOrIsResolved` | codex-rs/agent-backend/src/codex.rs:213-366 | in every run each registered request waits under its own id exactly until it is resolved: none is forgotten |
| `Backend.OwnFrameResolves` | codex-rs/agent-backend/src/codex.rs:304-366 | a frame with the id of a waiting request resolves that request and no other |
| `Backend.Possible` | codex-rs/agent-backend/src/codex.rs:200-366 | what can happen next in any reachable state |
| `Backend.OtherFrames` | codex-rs/agent-backend/src/codex.rs:314-349 | a frame nobody waits for is broadcast when it names a method and goes nowhere otherwise, and touches no waiter |
| `Backend.RequestSteps` | codex-rs/agent-backend/src/codex.rs:200-243 | a request gets the next number, waits under its id before it is sent, and is sent only while the channel has room |
| `Backend.IdReads` | codex-rs/agent-backend/src/codex.rs:200-204 | an id is an r and the number in decimal digits |
| `Backend.IdsDistinct` | codex-rs/agent-backend/src/codex.rs:200-204 | different requests have different ids, because decimal printing is injective |
| `Scenario.RunScenario` | codex-rs/agent-backend-conformance/src/runner.rs:38-69 | passes exactly when the stream is nonempty and holds the expected methods as a subsequence; what was observed is then the shortest nonempty prefix that does, and otherwise everything |
| `WrapperArgs.ArgumentScan.Observe` | tools/argument-comment-lint/wrapper_common.py:60-97 | one argument updates the flags, lists and awaited value as the step function says |
| `WrapperArgs.ParseWrapperArgs` | tools/argument-comment-lint/wrapper_common.py:55-99 | the loop computes the parse the theorems are about |
| `WrapperArgs.BuildFinalArgs` | tools/argument-comment-lint/wrapper_common.py:102-117 | the appends build the list the theorems are about |
| `WrapperArgs.BuildIsFixpoint` | tools/argument-comment-lint/wrapper_common.py:55-117 | parsing and rebuilding a built list returns it, for every argument list, exactly when the supplied manifest path is not the separator or is not needed |
| `WrapperArgs.Reparse` | tools/argument-comment-lint/wrapper_common.py:55-117 | parsing a built list finds the defaults in front, the lint and cargo arguments unchanged, and every default satisfied |
| `WrapperSpec.FinalArgs` | tools/argument-comment-lint/wrapper_common.py:55-117 | for every argument list, the final arguments are the defaults not given among the lint arguments that are no values, the lint arguments, and the cargo arguments with all targets unless something selects or fixes |
| `WrapperSpec.Splits` | tools/argument-comment-lint/wrapper_common.py:55-68 | every argument list has lint arguments up to its first separator and cargo arguments behind it |

## Left out

- FilterClientRequestIdempotent: takes the choice of arms as a parameter; the arm and field parsers (`parse_property_name` and below) only decide which parts are kept.
- FilterTypeFields: takes the choice of fields as a parameter.
- TypeFieldsIdempotent: the conditions on line comments, braces, imports and carriage returns are sufficient; only for the fields between the braces is the exact condition given, by ResplitExactly.
- BuildSchemaBundle: the title annotation is a parameter without panics; a root schema or definition named like a namespace is excluded.
- ExportClosedIff: about schemas as the generator emits them: one namespace, `v2`, definitions under `definitions` and not `$defs`, single-segment names other than `v2` and `$ref`, and no namespaced schema named like a shared one; annotating the definitions that are stored is taken to leave their refs as they are, as inserting titles does unless it overwrites one that is not text and holds a ref.
- GenerateJson: which fields, methods and types are experimental is a parameter. A reference such as `#`, into no definition, is left as it is and not given a meaning. With experimental parts pruned, the outcome is stated for bundles without numbered names, and when no experimental type is called `v2`.
- CanonicalFormDecides: object key order is not represented, since map equality ignores it; numbers are their printed text, so `0.0` and `-0.0` differ here.
- ResolutionPreservedIff: names are single-segment and hold no tilde or percent sign, as generated type names do; array indices in pointers are not part of this model.
- Rewriting in place: JSON trees are values here, so the traversals that mutate a `Value` return a new one; `MapRefs` is the one traversal for all four.
- The title annotation, numbered-collision detection inside one schema, pruning of the single-schema files and file output of the export.
- LagAccounting: an upstream lag event that is itself dropped counts as one event, as in the source; the counter saturates at 2^64 - 1, so exactness is stated up to that many events.
- RepliesOnce: that every process eventually exits is not stated; process output, stdin writes and resizes have no effect in this model.
- AtMostOnePerKey: assumes that a closed connection id starts nothing more, because sessions are removed by key when a task ends.
- GeneratedIdsNeverCollide: the 64-bit counter is unbounded here.
- CompletedAtMostOnce: websocket connection set-up, the initialize timeout and commands still queued when the worker exits, whose callers see a closed channel, are not part of this model.
- RoutingSafe: safety only; the source does not drain pending requests when its reader stops.
- RunScenario: the timeout around the loop.
- TurnEventConfluence: event payloads are tokens; time stamps and metadata strings are copied, not computed.
- Timers, sockets, processes, hashing and git lookups.
