/** Places inside a JSON value, and the traversals over `$ref` members said place by place. */
module Paths {
  import opened Json
  import opened Wrappers

  datatype Step = Member(name: string) | Item(index: nat)

  function Child(v: Value, step: Step): Option<Value>
  {
    match step
    case Member(name) => if v.Object? && name in v.members then Some(v.members[name]) else None
    case Item(index) => if v.Array? && index < |v.items| then Some(v.items[index]) else None
  }

  /** The value found by following the steps, if there is one. */
  function At(v: Value, path: seq<Step>): Option<Value>
    decreases |path|
  {
    if path == [] then Some(v)
    else
      var child := Child(v, path[0]);
      if child.None? then None else At(child.value, path[1..])
  }

  /** The path leads to a reference: a text that is the `$ref` member of an object. */
  predicate RefAt(v: Value, path: seq<Step>)
  {
    path != [] && path[|path| - 1] == Member("$ref") && At(v, path).Some? && At(v, path).value.String?
  }

  /** The same kind of value: equal leaves, as many items, the same keys. */
  predicate SameShape(a: Value, b: Value)
  {
    match a
    case Array(items) => b.Array? && |b.items| == |items|
    case Object(m) => b.Object? && b.members.Keys == m.Keys
    case _ => a == b
  }

  /** `b` is `a` with `f` applied to every reference: the two have the same places, with values of the
      same shape there, except that a reference is the new address. */
  ghost predicate Rewritten(a: Value, b: Value, f: string -> string)
  {
    forall path :: RewrittenAt(a, b, f, path)
  }

  predicate RewrittenAt(a: Value, b: Value, f: string -> string, path: seq<Step>)
  {
    && (At(b, path).Some? <==> At(a, path).Some?)
    && (At(a, path).Some? ==>
          var x, y := At(a, path).value, At(b, path).value;
          if RefAt(a, path) then y == String(f(x.s)) else SameShape(x, y))
  }

  lemma AtChild(v: Value, step: Step, path: seq<Step>)
    requires Child(v, step).Some?
    ensures At(v, [step] + path) == At(Child(v, step).value, path)
    ensures path != [] ==> (RefAt(v, [step] + path) <==> RefAt(Child(v, step).value, path))
  {
    assert ([step] + path)[1..] == path;
  }

  lemma AtMember(v: Value, name: string, path: seq<Step>)
    ensures At(v, [Member(name)] + path) == if v.Object? && name in v.members then At(v.members[name], path) else None
  {
    if Child(v, Member(name)).Some? { AtChild(v, Member(name), path); }
  }

  /** The collected refs are the texts at the places that hold a reference. */
  lemma {:induction false} RefsAt(v: Value, r: string)
    ensures r in Refs(v) <==> exists path :: RefAt(v, path) && At(v, path) == Some(String(r))
  {
    if r in Refs(v) {
      var path := WhereRef(v, r);
    }
    if path :| RefAt(v, path) && At(v, path) == Some(String(r)) {
      RefFound(v, path);
    }
  }

  lemma {:induction false} WhereRef(v: Value, r: string) returns (path: seq<Step>)
    requires r in Refs(v)
    ensures RefAt(v, path) && At(v, path) == Some(String(r))
  {
    match v
    case Array(items) =>
      var i: nat :| i < |items| && r in Refs(items[i]);
      var rest := WhereRef(items[i], r);
      AtChild(v, Item(i), rest);
      path := [Item(i)] + rest;
    case Object(m) =>
      if OwnRef(m) == Some(r) {
        path := [Member("$ref")];
        assert At(m["$ref"], []) == Some(m["$ref"]);
      } else {
        var k :| k in m && r in Refs(m[k]);
        var rest := WhereRef(m[k], r);
        AtChild(v, Member(k), rest);
        path := [Member(k)] + rest;
      }
    case _ =>
      assert false;
      path := [];
  }

  lemma {:induction false} RefFound(v: Value, path: seq<Step>)
    requires RefAt(v, path)
    ensures At(v, path).value.s in Refs(v)
    decreases |path|
  {
    var w := Child(v, path[0]).value;
    assert path == [path[0]] + path[1..];
    AtChild(v, path[0], path[1..]);
    if |path| == 1 {
      assert OwnRef(v.members) == Some(w.s);
    } else {
      RefFound(w, path[1..]);
      assert At(w, path[1..]).value.s in Refs(w);
    }
  }

  /** The traversal rewrites every reference and touches nothing else. */
  lemma {:induction false} MapRefsAt(v: Value, f: string -> string, path: seq<Step>)
    ensures RewrittenAt(v, MapRefs(v, f), f, path)
    decreases |path|
  {
    var w := MapRefs(v, f);
    if path != [] {
      assert path == [path[0]] + path[1..];
      assert Child(w, path[0]).Some? <==> Child(v, path[0]).Some?;
      if Child(v, path[0]).Some? {
        var x, y := Child(v, path[0]).value, Child(w, path[0]).value;
        AtChild(v, path[0], path[1..]);
        AtChild(w, path[0], path[1..]);
        if path[0] == Member("$ref") && x.String? {
          assert y == String(f(x.s));
        } else {
          assert y == MapRefs(x, f);
          MapRefsAt(x, f, path[1..]);
        }
      }
    }
  }

  lemma RewrittenChild(a: Value, b: Value, f: string -> string, step: Step)
    requires Rewritten(a, b, f) && Child(a, step).Some?
    requires !(step == Member("$ref") && Child(a, step).value.String?)
    ensures Child(b, step).Some? && Rewritten(Child(a, step).value, Child(b, step).value, f)
  {
    assert RewrittenAt(a, b, f, []);
    assert SameShape(a, b);
    var x, y := Child(a, step).value, Child(b, step).value;
    forall path ensures RewrittenAt(x, y, f, path) {
      AtChild(a, step, path);
      AtChild(b, step, path);
      assert RewrittenAt(a, b, f, [step] + path);
      if path == [] {
        assert ([step] + path)[|[step] + path| - 1] == step;
        assert !RefAt(a, [step] + path);
      }
    }
  }

  lemma {:induction false} RewrittenIsMapped(a: Value, b: Value, f: string -> string)
    requires Rewritten(a, b, f)
    ensures b == MapRefs(a, f)
  {
    assert RewrittenAt(a, b, f, []);
    match a
    case Array(items) =>
      forall i: nat | i < |items| ensures b.items[i] == MapRefs(items[i], f) {
        RewrittenChild(a, b, f, Item(i));
        RewrittenIsMapped(items[i], b.items[i], f);
      }
      assert b.items == MapRefs(a, f).items;
    case Object(m) =>
      forall k | k in m ensures b.members[k] == MapRefs(a, f).members[k] {
        if k == "$ref" && m[k].String? {
          AtChild(a, Member(k), []);
          AtChild(b, Member(k), []);
          assert RefAt(a, [Member(k)] + []);
          assert RewrittenAt(a, b, f, [Member(k)] + []);
        } else {
          RewrittenChild(a, b, f, Member(k));
          RewrittenIsMapped(m[k], b.members[k], f);
        }
      }
      assert b.members == MapRefs(a, f).members;
    case _ =>
  }

  /** Being the rewritten value, place by place, is being what the traversal returns. */
  lemma {:induction false} MapRefsRewrites(a: Value, b: Value, f: string -> string)
    ensures b == MapRefs(a, f) <==> Rewritten(a, b, f)
  {
    if Rewritten(a, b, f) { RewrittenIsMapped(a, b, f); }
    if b == MapRefs(a, f) {
      forall path ensures RewrittenAt(a, b, f, path) { MapRefsAt(a, f, path); }
    }
  }

  /** Only what the function does to the references there are matters. */
  lemma RewrittenAlike(a: Value, b: Value, f: string -> string, g: string -> string)
    requires forall r | r in Refs(a) :: f(r) == g(r)
    ensures Rewritten(a, b, f) <==> Rewritten(a, b, g)
  {
    forall path ensures RewrittenAt(a, b, f, path) <==> RewrittenAt(a, b, g, path) {
      if RefAt(a, path) { RefFound(a, path); }
    }
    assert Rewritten(a, b, f) ==> forall path :: RewrittenAt(a, b, f, path);
    assert Rewritten(a, b, g) ==> forall path :: RewrittenAt(a, b, g, path);
  }
}
