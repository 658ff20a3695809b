/** What pruning method variants takes out of a value and what it leaves, said about the values before
    and after; and the variants it can fail to take out. */
module Variants {
  import opened Json
  import opened Paths
  import opened Prune
  import opened Sequences
  import opened Wrappers

  // ----- method variants

  const TAG := [Member("properties"), Member("method")]

  predicate TextAt(v: Value, path: seq<Step>) { At(v, path).Some? && At(v, path).value.String? }

  /** The `method` among the properties is this constant, or else the one value of an `enum`. */
  predicate Tagged(v: Value, name: string)
  {
    if TextAt(v, TAG + [Member("const")]) then At(v, TAG + [Member("const")]) == Some(String(name))
    else At(v, TAG + [Member("enum")]) == Some(Array([String(name)]))
  }

  predicate Variant(v: Value, methods: set<string>) { exists m | m in methods :: Tagged(v, m) }

  function NoVariant(methods: set<string>): Value -> bool { v => !Variant(v, methods) }

  /** `b` is `a` without its method variants: every array has lost exactly those, whatever is left is in
      its order, and nothing else has changed. */
  ghost predicate MethodsGone(a: Value, b: Value, methods: set<string>)
    decreases a, 1
  {
    match a
    case Array(items) =>
      && b.Array?
      && exists at :: Positions(items, NoVariant(methods), at) && ItemsGone(items, b.items, at, methods)
    case Object(m) =>
      b.Object? && b.members.Keys == m.Keys && forall k | k in m :: MethodsGone(m[k], b.members[k], methods)
    case _ => b == a
  }

  ghost predicate ItemsGone(a: seq<Value>, b: seq<Value>, at: seq<nat>, methods: set<string>)
    decreases a, 0
  {
    |b| == |at| && forall i | 0 <= i < |at| :: at[i] < |a| && MethodsGone(a[at[i]], b[i], methods)
  }

  lemma TagAt(v: Value, k: string)
    ensures At(v, TAG + [Member(k)]) ==
      if v.Object? && "properties" in v.members then
        var p := v.members["properties"];
        if p.Object? && "method" in p.members && p.members["method"].Object? && k in p.members["method"].members
        then Some(p.members["method"].members[k]) else None
      else None
  {
    assert TAG + [Member(k)] == [Member("properties")] + ([Member("method")] + ([Member(k)] + []));
    AtMember(v, "properties", [Member("method")] + ([Member(k)] + []));
    if v.Object? && "properties" in v.members {
      var p := v.members["properties"];
      AtMember(p, "method", [Member(k)] + []);
      if p.Object? && "method" in p.members { AtMember(p.members["method"], k, []); }
    }
  }

  lemma {:induction false} VariantIff(v: Value, methods: set<string>)
    ensures IsVariantOf(v, methods) <==> Variant(v, methods)
  {
    TagAt(v, "const");
    TagAt(v, "enum");
    if IsVariantOf(v, methods) {
      var m := v.members["properties"].members["method"].members;
      if TextAt(v, TAG + [Member("const")]) {
        assert Tagged(v, m["const"].s);
      } else {
        assert m["enum"].items == [String(m["enum"].items[0].s)];
        assert Tagged(v, m["enum"].items[0].s);
      }
    }
  }

  lemma {:induction false} PruningRemovesVariants(v: Value, methods: set<string>)
    ensures MethodsGone(v, PruneMethods(v, methods), methods)
    decreases v, 1
  {
    match v
    case Array(items) =>
      var at := PruningKeepsItems(items, methods);
    case Object(m) =>
      forall k | k in m { PruningRemovesVariants(m[k], methods); }
    case _ =>
  }

  lemma {:induction false} PruningKeepsItems(items: seq<Value>, methods: set<string>) returns (at: seq<nat>)
    ensures Positions(items, NoVariant(methods), at)
    ensures ItemsGone(items, PruneItems(items, methods), at, methods)
    decreases items, 0
  {
    if items == [] {
      at := [];
    } else {
      var rest := PruningKeepsItems(items[1..], methods);
      VariantIff(items[0], methods);
      PositionsCons(items, NoVariant(methods), rest);
      var later := PruneItems(items[1..], methods);
      ItemsMoved(items, later, rest, methods);
      if Variant(items[0], methods) {
        at := Moved(rest);
      } else {
        at := [0] + Moved(rest);
        PruningRemovesVariants(items[0], methods);
        ItemsKept(items, PruneMethods(items[0], methods), later, Moved(rest), methods);
      }
    }
  }

  lemma ItemsMoved(a: seq<Value>, b: seq<Value>, rest: seq<nat>, methods: set<string>)
    requires a != [] && ItemsGone(a[1..], b, rest, methods)
    ensures ItemsGone(a, b, Moved(rest), methods)
  {
    var at := Moved(rest);
    forall i | 0 <= i < |at| ensures at[i] < |a| && MethodsGone(a[at[i]], b[i], methods) {
      assert rest[i] < |a[1..]| && MethodsGone(a[1..][rest[i]], b[i], methods);
      assert a[1..][rest[i]] == a[at[i]];
    }
  }

  lemma ItemsKept(a: seq<Value>, y: Value, later: seq<Value>, at: seq<nat>, methods: set<string>)
    requires a != [] && ItemsGone(a, later, at, methods) && MethodsGone(a[0], y, methods)
    ensures ItemsGone(a, [y] + later, [0] + at, methods)
  {
    var b, at' := [y] + later, [0] + at;
    forall i | 0 <= i < |at'| ensures at'[i] < |a| && MethodsGone(a[at'[i]], b[i], methods) {
      if i > 0 { assert at'[i] == at[i - 1] && b[i] == later[i - 1]; }
    }
  }

  // ----- none is left, or almost

  /** No array anywhere in the value holds a method variant. */
  ghost predicate Clean(v: Value, methods: set<string>) { forall path :: CleanAt(v, path, methods) }

  predicate CleanAt(v: Value, path: seq<Step>, methods: set<string>)
  {
    path != [] && path[|path| - 1].Item? && At(v, path).Some? ==> !Variant(At(v, path).value, methods)
  }

  /** Not a variant, but what is left of its `enum` without variants is one: the method, when everything
      else listed with it is a variant itself. */
  predicate Masked(v: Value, methods: set<string>)
  {
    !TextAt(v, TAG + [Member("const")])
    && var at := At(v, TAG + [Member("enum")]);
    at.Some? && at.value.Array? && |at.value.items| > 1 && MaskedItems(at.value.items, methods)
  }

  predicate MaskedItems(items: seq<Value>, methods: set<string>)
  {
    exists i | 0 <= i < |items| ::
      && items[i].String? && items[i].s in methods
      && forall j | 0 <= j < |items| && j != i :: Variant(items[j], methods)
  }

  /** No array holds a masked item, but for arrays inside variants. */
  ghost predicate Unmasked(v: Value, methods: set<string>)
  {
    match v
    case Array(items) =>
      forall i | 0 <= i < |items| ::
        Variant(items[i], methods) || (!Masked(items[i], methods) && Unmasked(items[i], methods))
    case Object(m) => forall k | k in m :: Unmasked(m[k], methods)
    case _ => true
  }

  lemma CleanChild(v: Value, step: Step, methods: set<string>)
    requires Clean(v, methods) && Child(v, step).Some?
    ensures Clean(Child(v, step).value, methods)
    ensures step.Item? ==> !Variant(Child(v, step).value, methods)
  {
    var w := Child(v, step).value;
    forall path ensures CleanAt(w, path, methods) {
      AtChild(v, step, path);
      assert CleanAt(v, [step] + path, methods);
    }
    AtChild(v, step, []);
    assert CleanAt(v, [step] + [], methods);
  }

  lemma CleanFromChildren(v: Value, methods: set<string>)
    requires forall step | Child(v, step).Some? ::
      Clean(Child(v, step).value, methods) && (step.Item? ==> !Variant(Child(v, step).value, methods))
    ensures Clean(v, methods)
  {
    forall path ensures CleanAt(v, path, methods) {
      if path != [] && Child(v, path[0]).Some? {
        assert path == [path[0]] + path[1..];
        AtChild(v, path[0], path[1..]);
        assert CleanAt(Child(v, path[0]).value, path[1..], methods);
      }
    }
  }

  lemma StringIsNoVariant(s: string, methods: set<string>)
    ensures !Variant(String(s), methods)
  {
    TagAt(String(s), "const");
    TagAt(String(s), "enum");
  }

  /** The array that pruning leaves holds nothing but this text. */
  lemma {:induction false} LeavesOnly(items: seq<Value>, s: string, methods: set<string>)
    ensures PruneItems(items, methods) == [String(s)] <==>
      exists i | 0 <= i < |items| ::
        items[i] == String(s) && forall j | 0 <= j < |items| && j != i :: Variant(items[j], methods)
  {
    StringIsNoVariant(s, methods);
    if items != [] {
      var rest := items[1..];
      VariantIff(items[0], methods);
      assert forall j | 0 < j < |items| :: items[j] == rest[j - 1];
      if Variant(items[0], methods) {
        LeavesOnly(rest, s, methods);
        if i :| 0 <= i < |rest| && rest[i] == String(s)
                && forall j | 0 <= j < |rest| && j != i :: Variant(rest[j], methods) {
          assert items[i + 1] == String(s);
          forall j | 0 <= j < |items| && j != i + 1 ensures Variant(items[j], methods) {
            if j > 0 { assert Variant(rest[j - 1], methods); }
          }
        }
        if i :| 0 <= i < |items| && items[i] == String(s)
                && forall j | 0 <= j < |items| && j != i :: Variant(items[j], methods) {
          assert rest[i - 1] == String(s);
          forall j | 0 <= j < |rest| && j != i - 1 ensures Variant(rest[j], methods) {
            assert rest[j] == items[j + 1];
          }
        }
      } else {
        LeavesNothing(rest, methods);
        var first := PruneMethods(items[0], methods);
        assert PruneItems(items, methods) == [first] + PruneItems(rest, methods);
        assert first == String(s) <==> items[0] == String(s);
        if PruneItems(items, methods) == [String(s)] {
          assert |PruneItems(rest, methods)| == 0 && PruneItems(items, methods)[0] == first;
          forall j | 0 < j < |items| ensures Variant(items[j], methods) { assert items[j] == rest[j - 1]; }
          assert items[0] == String(s);
        }
        if i :| 0 <= i < |items| && items[i] == String(s)
                && forall j | 0 <= j < |items| && j != i :: Variant(items[j], methods) {
          assert i == 0;
          forall j | 0 <= j < |rest| ensures Variant(rest[j], methods) { assert rest[j] == items[j + 1]; }
        }
      }
    }
  }

  lemma {:induction false} LeavesNothing(items: seq<Value>, methods: set<string>)
    ensures PruneItems(items, methods) == [] <==> forall j | 0 <= j < |items| :: Variant(items[j], methods)
  {
    if items != [] {
      VariantIff(items[0], methods);
      LeavesNothing(items[1..], methods);
      assert forall j | 0 < j < |items| :: items[j] == items[1..][j - 1];
    }
  }

  lemma TagPruned(v: Value, k: string, methods: set<string>)
    ensures At(PruneMethods(v, methods), TAG + [Member(k)]) ==
      if At(v, TAG + [Member(k)]).Some? then Some(PruneMethods(At(v, TAG + [Member(k)]).value, methods)) else None
  {
    var w := PruneMethods(v, methods);
    TagAt(v, k);
    TagAt(w, k);
    if v.Object? && "properties" in v.members {
      var p, q := v.members["properties"], w.members["properties"];
      assert q == PruneMethods(p, methods);
      if p.Object? && "method" in p.members {
        assert q.members["method"] == PruneMethods(p.members["method"], methods);
      }
    }
  }

  lemma OneIsTagged(v: Value, items: seq<Value>, name: string)
    requires !TextAt(v, TAG + [Member("const")]) && At(v, TAG + [Member("enum")]) == Some(Array(items))
    requires |items| == 1 && items[0] == String(name)
    ensures Tagged(v, name)
  {
    assert items == [String(name)];
  }

  /** A value that is no variant becomes one exactly when it is masked. */
  lemma {:induction false} BecomesVariantIff(v: Value, methods: set<string>)
    requires !Variant(v, methods)
    ensures Variant(PruneMethods(v, methods), methods) <==> Masked(v, methods)
  {
    var w := PruneMethods(v, methods);
    TagPruned(v, "const", methods);
    TagPruned(v, "enum", methods);
    var before, after := At(v, TAG + [Member("enum")]), At(w, TAG + [Member("enum")]);
    if !TextAt(v, TAG + [Member("const")]) && before.Some? && before.value.Array? {
      var items := before.value.items;
      forall m | m in methods
        ensures PruneItems(items, methods) == [String(m)] <==>
          exists i | 0 <= i < |items| ::
            items[i] == String(m) && forall j | 0 <= j < |items| && j != i :: Variant(items[j], methods)
      {
        LeavesOnly(items, m, methods);
      }
      if |items| == 1 && items[0].String? && items[0].s in methods {
        OneIsTagged(v, items, items[0].s);
      }
    }
  }

  lemma CleanArray(items: seq<Value>, methods: set<string>)
    ensures Clean(Array(items), methods) <==> forall x | x in items :: Clean(x, methods) && !Variant(x, methods)
  {
    var v := Array(items);
    if Clean(v, methods) {
      forall x | x in items ensures Clean(x, methods) && !Variant(x, methods) {
        var i: nat :| i < |items| && items[i] == x;
        CleanChild(v, Item(i), methods);
      }
    }
    if forall x | x in items :: Clean(x, methods) && !Variant(x, methods) { CleanFromChildren(v, methods); }
  }

  lemma CleanObject(m: map<string, Value>, methods: set<string>)
    ensures Clean(Object(m), methods) <==> forall k | k in m :: Clean(m[k], methods)
  {
    var v := Object(m);
    if Clean(v, methods) {
      forall k | k in m ensures Clean(m[k], methods) { CleanChild(v, Member(k), methods); }
    }
    if forall k | k in m :: Clean(m[k], methods) { CleanFromChildren(v, methods); }
  }

  lemma CleanScalar(v: Value, methods: set<string>)
    requires !v.Array? && !v.Object?
    ensures Clean(v, methods)
  {
    CleanFromChildren(v, methods);
  }

  /** After pruning no array anywhere holds a method variant, exactly when no item was masked. */
  lemma {:induction false} PrunedIsCleanIff(v: Value, methods: set<string>)
    ensures Clean(PruneMethods(v, methods), methods) <==> Unmasked(v, methods)
    decreases v, 1
  {
    match v
    case Array(items) =>
      ItemsCleanIff(items, methods);
      CleanArray(PruneItems(items, methods), methods);
    case Object(m) =>
      var m' := PruneMethods(v, methods).members;
      forall k | k in m ensures Clean(m'[k], methods) <==> Unmasked(m[k], methods) {
        PrunedIsCleanIff(m[k], methods);
      }
      CleanObject(m', methods);
    case _ => CleanScalar(v, methods);
  }

  lemma {:induction false} ItemsCleanIff(items: seq<Value>, methods: set<string>)
    ensures (forall x | x in PruneItems(items, methods) :: Clean(x, methods) && !Variant(x, methods)) <==>
      forall i | 0 <= i < |items| ::
        Variant(items[i], methods) || (!Masked(items[i], methods) && Unmasked(items[i], methods))
    decreases items, 0
  {
    if items != [] {
      ItemsCleanIff(items[1..], methods);
      VariantIff(items[0], methods);
      assert forall i | 0 < i < |items| :: items[i] == items[1..][i - 1];
      if !Variant(items[0], methods) {
        var first := PruneMethods(items[0], methods);
        PrunedIsCleanIff(items[0], methods);
        BecomesVariantIff(items[0], methods);
        assert PruneItems(items, methods)[0] == first;
        assert forall x :: x in PruneItems(items, methods) <==> x == first || x in PruneItems(items[1..], methods);
      }
    }
  }

  /** A variant whose `enum` also lists a variant. */
  function MaskedVariant(): Value
  {
    var inner := Object(map["properties" := Object(map["method" := Object(map["const" := String("m")])])]);
    Object(map["properties" := Object(map["method" := Object(map["enum" := Array([String("m"), inner])])])])
  }

  /** It is kept, and what is left of it is a variant. */
  lemma {:induction false} MaskedVariantStays()
    ensures !Clean(PruneMethods(Array([MaskedVariant()]), {"m"}), {"m"})
  {
    var v := MaskedVariant();
    var items := v.members["properties"].members["method"].members["enum"].items;
    TagAt(v, "const");
    TagAt(v, "enum");
    TagAt(items[1], "const");
    assert Tagged(items[1], "m");
    assert items[0] == String("m") && MaskedItems(items, {"m"});
    assert Masked(v, {"m"});
    VariantIff(v, {"m"});
    PrunedIsCleanIff(Array([v]), {"m"});
    assert [v][0] == v;
  }
}
