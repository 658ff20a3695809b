/** JSON values and the traversals over `$ref` members that the schema export is made of. */
module Json {
  import opened Wrappers

  /** Printed form of a JSON number. */
  type NumberText = s: string | IsNumberText(s) witness "0"

  predicate IsNumberStart(c: char) { c == '-' || '0' <= c <= '9' }

  predicate IsNumberChar(c: char) { IsNumberStart(c) || c in "+.eE" }

  predicate IsNumberText(s: string)
  {
    s != "" && IsNumberStart(s[0]) && forall c | c in s :: IsNumberChar(c)
  }

  /** Members are a map: two JSON objects are equal whatever order their keys were written in. */
  datatype Value =
    | Null
    | Bool(b: bool)
    | Number(text: NumberText)
    | String(s: string)
    | Array(items: seq<Value>)
    | Object(members: map<string, Value>)

  const REF := "$ref"

  /** The `$ref` of this object itself, if it has a textual one. */
  function OwnRef(m: map<string, Value>): Option<string>
  {
    if REF in m && m[REF].String? then Some(m[REF].s) else None
  }

  /** Every textual `$ref` at any depth. */
  function Refs(v: Value): set<string>
  {
    match v
    case Array(items) => set i, r | 0 <= i < |items| && r in Refs(items[i]) :: r
    case Object(m) =>
      (if OwnRef(m).Some? then {OwnRef(m).value} else {})
      + (set k, r | k in m && r in Refs(m[k]) :: r)
    case _ => {}
  }

  /** The value with `f` applied to every textual `$ref`. */
  function MapRefs(v: Value, f: string -> string): Value
  {
    match v
    case Array(items) => Array(seq(|items|, i requires 0 <= i < |items| => MapRefs(items[i], f)))
    case Object(m) =>
      Object(map k | k in m :: if k == REF && m[k].String? then String(f(m[k].s)) else MapRefs(m[k], f))
    case _ => v
  }

  lemma {:induction false} MapRefsKeeps(v: Value, f: string -> string, r: string)
    requires r in Refs(v)
    ensures f(r) in Refs(MapRefs(v, f))
  {
    match v
    case Array(items) =>
      var i :| 0 <= i < |items| && r in Refs(items[i]);
      MapRefsKeeps(items[i], f, r);
      assert MapRefs(v, f).items[i] == MapRefs(items[i], f);
    case Object(m) =>
      var m' := MapRefs(v, f).members;
      if OwnRef(m) != Some(r) {
        var k :| k in m && r in Refs(m[k]);
        MapRefsKeeps(m[k], f, r);
        assert m'[k] == MapRefs(m[k], f);
      }
    case _ =>
  }

  lemma {:induction false} MapRefsAdds(v: Value, f: string -> string, s: string) returns (r: string)
    requires s in Refs(MapRefs(v, f))
    ensures r in Refs(v) && f(r) == s
  {
    match v
    case Array(items) =>
      var i :| 0 <= i < |items| && s in Refs(MapRefs(v, f).items[i]);
      r := MapRefsAdds(items[i], f, s);
    case Object(m) =>
      var m' := MapRefs(v, f).members;
      if OwnRef(m') == Some(s) {
        r := m[REF].s;
        assert OwnRef(m) == Some(r);
      } else {
        var k :| k in m' && s in Refs(m'[k]);
        r := MapRefsAdds(m[k], f, s);
      }
    case _ =>
      assert false;
      r := s;
  }

  /** Rewriting acts on the set of refs pointwise: none is lost, none is invented. */
  lemma MapRefsRefs(v: Value, f: string -> string)
    ensures Refs(MapRefs(v, f)) == set r | r in Refs(v) :: f(r)
  {
    forall r | r in Refs(v) ensures f(r) in Refs(MapRefs(v, f)) { MapRefsKeeps(v, f, r); }
    forall s | s in Refs(MapRefs(v, f)) ensures exists r :: r in Refs(v) && f(r) == s {
      var r := MapRefsAdds(v, f, s);
    }
  }

  /** A second rewrite that fixes everything the first one produces changes nothing. */
  lemma {:induction false} MapRefsFixed(v: Value, f: string -> string)
    requires forall r | r in Refs(v) :: f(r) == r
    ensures MapRefs(v, f) == v
  {
    match v
    case Array(items) =>
      forall i | 0 <= i < |items| { MapRefsFixed(items[i], f); }
    case Object(m) =>
      assert OwnRef(m).Some? ==> OwnRef(m).value in Refs(v);
      forall k | k in m { MapRefsFixed(m[k], f); }
    case _ =>
  }
}
